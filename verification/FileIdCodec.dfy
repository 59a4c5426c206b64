/** The encoders and Decode of internal/fileid/fileid.go in their own form: appending to a
    buffer and reading through a cursor. Each is proved against its layout in FileId. */
module FileIdCodec {
  import opened Bytes
  import opened Wire
  import opened FileId
  import opened UniqueId
  import Base64
  import Rle

  lemma CatThree(a: seq<byte>, b: seq<byte>, c: seq<byte>, d: seq<byte>)
    ensures ((a + b) + c) + d == a + (b + (c + d))
  {
    Assoc(a + b, c, d);
    Assoc(a, b, c + d);
  }

  lemma CatFive(a: seq<byte>, b: seq<byte>, c: seq<byte>, d: seq<byte>, e: seq<byte>, f: seq<byte>)
    ensures ((((a + b) + c) + d) + e) + f == a + (b + (c + (d + (e + f))))
  {
    CatThree((a + b) + c, d, e, f);
    Assoc(a + b, c, d + (e + f));
    Assoc(a, b, c + (d + (e + f)));
  }

  /** encode: compress zero runs, then base64. */
  method Wrap(data: seq<byte>) returns (s: string)
    ensures s == EncodeRaw(data)
  {
    var raw := Rle.RleEncode(data);
    s := Base64.Encode(Base64.UrlSafe, raw);
  }

  method PutTrailer(b: Buf)
    modifies b
    ensures b.b == old(b.b) + TRAILER
  {
    ghost var before := b.b;
    b.PutU8(SUB_VERSION);
    b.PutU8(VERSION);
    Assoc(before, [SUB_VERSION], [VERSION]);
    assert [SUB_VERSION] + [VERSION] == TRAILER;
  }

  /** The head every remote location starts with: type, dc, reference, id, access hash.
      Whatever suffix follows completes it to a location. */
  method StartLocation(t: int, dcID: int, ref: seq<byte>, id: int, accessHash: int, ghost suffix: seq<byte>)
    returns (b: Buf)
    ensures fresh(b) && b.b + suffix == Location(t, dcID, ref, id, accessHash, suffix)
  {
    b := new Buf();
    b.PutU32(TypeWord(t, ref));
    b.PutU32(dcID);
    if |ref| > 0 { b.PutBytes(ref); }
    b.PutI64(id);
    b.PutI64(accessHash);
    assert [] + U32(TypeWord(t, ref)) == U32(TypeWord(t, ref));
    assert (U32(TypeWord(t, ref)) + U32(dcID)) + [] == U32(TypeWord(t, ref)) + U32(dcID);
    CatFive(U32(TypeWord(t, ref)), U32(dcID), Reference(ref), I64(id), I64(accessHash), suffix);
  }

  method EncodeDocument(dcID: int, id: int, accessHash: int, ref: seq<byte>, t: int) returns (s: string)
    ensures s == EncodeRaw(DocumentLayout(dcID, id, accessHash, ref, t))
  {
    var b := StartLocation(t, dcID, ref, id, accessHash, TRAILER);
    PutTrailer(b);
    s := Wrap(b.b);
  }

  /** EncodeThumbnailPhoto (t = photo) and EncodeDocumentThumbnail (t = thumbnail). */
  method EncodeThumbnail(t: int, dcID: int, id: int, accessHash: int, ref: seq<byte>, thumbnailType: byte)
    returns (s: string)
    ensures s == EncodeRaw(ThumbnailLayout(t, dcID, id, accessHash, ref, thumbnailType))
  {
    ghost var suffix := U32(SOURCE_THUMBNAIL) + (U32(t) + (U32(thumbnailType) + TRAILER));
    var b := StartLocation(t, dcID, ref, id, accessHash, suffix);
    ghost var head := b.b;
    b.PutU32(SOURCE_THUMBNAIL);
    b.PutU32(t);
    b.PutU32(thumbnailType);
    PutTrailer(b);
    CatThree(head + U32(SOURCE_THUMBNAIL), U32(t), U32(thumbnailType), TRAILER);
    Assoc(head, U32(SOURCE_THUMBNAIL), U32(t) + (U32(thumbnailType) + TRAILER));
    s := Wrap(b.b);
  }

  method EncodeDialogPhoto(dcID: int, photoID: int, chatID: int, chatAccessHash: int, isBig: bool) returns (s: string)
    ensures s == EncodeRaw(DialogPhotoLayout(dcID, photoID, chatID, chatAccessHash, isBig))
  {
    var src := if isBig then SOURCE_DIALOG_BIG else SOURCE_DIALOG_SMALL;
    ghost var suffix := U32(src) + (I64(chatID) + (I64(chatAccessHash) + TRAILER));
    var b := StartLocation(TYPE_PROFILE_PHOTO, dcID, [], photoID, 0, suffix);
    ghost var head := b.b;
    b.PutU32(src);
    b.PutI64(chatID);
    b.PutI64(chatAccessHash);
    PutTrailer(b);
    CatThree(head + U32(src), I64(chatID), I64(chatAccessHash), TRAILER);
    Assoc(head, U32(src), I64(chatID) + (I64(chatAccessHash) + TRAILER));
    s := Wrap(b.b);
  }

  method EncodeStickerSetThumb(dcID: int, setID: int, setAccessHash: int, thumbVersion: int) returns (s: string)
    ensures s == EncodeRaw(StickerSetThumbLayout(dcID, setID, setAccessHash, thumbVersion))
  {
    ghost var suffix := U32(SOURCE_STICKER_SET_VERSION) +
      (I64(setID) + (I64(setAccessHash) + (U32(thumbVersion) + TRAILER)));
    var b := StartLocation(TYPE_THUMBNAIL, dcID, [], 0, 0, suffix);
    ghost var head := b.b;
    b.PutU32(SOURCE_STICKER_SET_VERSION);
    b.PutI64(setID);
    b.PutI64(setAccessHash);
    b.PutU32(thumbVersion);
    PutTrailer(b);
    CatFive(head, U32(SOURCE_STICKER_SET_VERSION), I64(setID), I64(setAccessHash), U32(thumbVersion), TRAILER);
    s := Wrap(b.b);
  }

  method EncodeFullLegacyPhoto(dcID: int, photoID: int, accessHash: int, ref: seq<byte>,
                               volumeID: int, localID: int, secret: int, t: int) returns (s: string)
    ensures s == EncodeRaw(FullLegacyLayout(dcID, photoID, accessHash, ref, volumeID, localID, secret, t))
  {
    ghost var suffix := U32(SOURCE_FULL_LEGACY) + (I64(volumeID) + (I64(secret) + (U32(localID) + TRAILER)));
    var b := StartLocation(t, dcID, ref, photoID, accessHash, suffix);
    ghost var head := b.b;
    b.PutU32(SOURCE_FULL_LEGACY);
    b.PutI64(volumeID);
    b.PutI64(secret);
    b.PutU32(localID);
    PutTrailer(b);
    CatFive(head, U32(SOURCE_FULL_LEGACY), I64(volumeID), I64(secret), U32(localID), TRAILER);
    s := Wrap(b.b);
  }

  /** The tail shared by the two legacy sources with a volume: two longs, volume, local id. */
  method PutLegacy(b: Buf, src: int, id: int, accessHash: int, volumeID: int, localID: int)
    modifies b
    ensures b.b == old(b.b) + (U32(src) + (I64(id) + (I64(accessHash) + (I64(volumeID) + (U32(localID) + TRAILER)))))
  {
    ghost var head := b.b;
    b.PutU32(src);
    b.PutI64(id);
    b.PutI64(accessHash);
    b.PutI64(volumeID);
    b.PutU32(localID);
    PutTrailer(b);
    CatFive(head + U32(src), I64(id), I64(accessHash), I64(volumeID), U32(localID), TRAILER);
    Assoc(head, U32(src), I64(id) + (I64(accessHash) + (I64(volumeID) + (U32(localID) + TRAILER))));
  }

  method EncodeDialogPhotoLegacy(dcID: int, photoID: int, chatID: int, chatAccessHash: int, isBig: bool,
                                 volumeID: int, localID: int) returns (s: string)
    ensures s == EncodeRaw(DialogLegacyLayout(dcID, photoID, chatID, chatAccessHash, isBig, volumeID, localID))
  {
    var src := if isBig then SOURCE_DIALOG_BIG_LEGACY else SOURCE_DIALOG_SMALL_LEGACY;
    ghost var suffix := U32(src) + (I64(chatID) + (I64(chatAccessHash) + (I64(volumeID) + (U32(localID) + TRAILER))));
    var b := StartLocation(TYPE_PROFILE_PHOTO, dcID, [], photoID, 0, suffix);
    PutLegacy(b, src, chatID, chatAccessHash, volumeID, localID);
    s := Wrap(b.b);
  }

  method EncodeStickerSetThumbLegacy(dcID: int, setID: int, setAccessHash: int, volumeID: int, localID: int)
    returns (s: string)
    ensures s == EncodeRaw(StickerSetLegacyLayout(dcID, setID, setAccessHash, volumeID, localID))
  {
    ghost var suffix := U32(SOURCE_STICKER_SET_LEGACY)
                        + (I64(setID) + (I64(setAccessHash) + (I64(volumeID) + (U32(localID) + TRAILER))));
    var b := StartLocation(TYPE_THUMBNAIL, dcID, [], 0, 0, suffix);
    PutLegacy(b, SOURCE_STICKER_SET_LEGACY, setID, setAccessHash, volumeID, localID);
    s := Wrap(b.b);
  }

  method EncodeWeb(t: int, url: seq<byte>, accessHash: int) returns (s: string)
    ensures s == EncodeRaw(WebLayout(t, url, accessHash))
  {
    var b := new Buf();
    b.PutU32(SetFlag(t, WEB_LOCATION_FLAG));
    b.PutU32(0);
    b.PutBytes(url);
    b.PutI64(accessHash);
    PutTrailer(b);
    ghost var w := U32(SetFlag(t, WEB_LOCATION_FLAG));
    assert [] + w == w;
    CatThree(w + U32(0), Padded(8, url), I64(accessHash), TRAILER);
    Assoc(w, U32(0), Padded(8, url) + (I64(accessHash) + TRAILER));
    s := Wrap(b.b);
  }

  method EncodeGenerated(t: int, path: seq<byte>, conversion: seq<byte>) returns (s: string)
    ensures s == FileId.EncodeGenerated(t, path, conversion)
  {
    var b := new Buf();
    b.PutU32(t);
    assert b.b == U32(t);
    b.PutBytes(path);
    b.PutBytes(conversion);
    Assoc(U32(t), Padded(4, path), Padded(4 + |Padded(4, path)|, conversion));
    var data := Rle.RleEncode(b.b);
    data := data + [GENERATED_VERSION];
    s := Base64.Encode(Base64.UrlSafe, data);
  }

  // ---------- unique ids ----------

  method EncodeDocumentUnique(id: int, t: int) returns (s: string)
    ensures s == UniqueString(DocumentKey(TypeClass(t), id))
  {
    var b := new Buf();
    b.PutU32(TypeClass(t));
    assert b.b == U32(TypeClass(t));
    b.PutI64(id);
    s := Wrap(b.b);
  }

  /** EncodeDialogPhotoUnique and EncodeThumbnailPhotoUnique differ in the last byte. */
  method EncodePhotoSizeUnique(id: int, compare: byte) returns (s: string)
    ensures s == UniqueString(PhotoKey(id, compare))
  {
    var b := new Buf();
    b.PutU32(1);
    assert b.b == U32(1);
    b.PutI64(id);
    b.PutU8(compare);
    Assoc(U32(1), I64(id), [compare]);
    s := Wrap(b.b);
  }

  /** EncodeStickerSetThumbUnique with tag 2, encodeLegacyPhotoUnique with tag 3. */
  method EncodeTaggedUnique(tag: byte, long: int, word: int) returns (s: string)
    requires tag == 2 || tag == 3
    ensures s == UniqueString(if tag == 2 then StickerSetKey(long, word) else LegacyKey(long, word))
  {
    var b := new Buf();
    b.PutU32(1);
    assert b.b == U32(1);
    b.PutU8(tag);
    b.PutI64(long);
    b.PutU32(word);
    CatThree(U32(1), [tag], I64(long), U32(word));
    s := Wrap(b.b);
  }

  method EncodeGeneratedUnique(t: int, path: seq<byte>, conversion: seq<byte>) returns (s: string)
    ensures s == UniqueString(GeneratedKey(t, path, conversion))
  {
    var b := new Buf();
    b.PutU8(0xFF);
    b.PutU32(t);
    assert b.b == [0xFF] + U32(t);
    b.PutBytes(path);
    b.PutBytes(conversion);
    CatThree([0xFF], U32(t), Padded(5, path), Padded(5 + |Padded(5, path)|, conversion));
    s := Wrap(b.b);
  }

  // ---------- decoding ----------

  /** binary.Read into an int64. */
  method Take64(r: Reader) returns (v: int)
    requires r.Valid()
    modifies r`i
    ensures r.Valid() && (v, r.Rest()) == Next64(old(r.Rest()))
  {
    if |r.data| - r.i < 8 {
      r.i := |r.data|;
      assert r.Rest() == [];
      v := 0;
    } else {
      var w := r.TakeFixed(8);
      v := ToInt64(FromLittleEndian(w.value));
    }
  }

  /** binary.Read into an int32; whole says whether all four bytes were there. */
  method Take32(r: Reader) returns (v: int, whole: bool)
    requires r.Valid()
    modifies r`i
    ensures r.Valid() && (v, r.Rest()) == Next32(old(r.Rest())) && whole == (|old(r.Rest())| >= 4)
  {
    whole := |r.data| - r.i >= 4;
    if whole {
      var w := r.TakeFixed(4);
      v := ToInt32(FromLittleEndian(w.value));
    } else {
      r.i := |r.data|;
      assert r.Rest() == [];
      v := 0;
    }
  }

  /** The switch over the photo source. */
  method TakeSource(r: Reader, d0: Decoded) returns (d: Decoded)
    requires r.Valid() && r.Rest() != []
    modifies r`i
    ensures d == DecodeSource(d0, old(r.Rest()))
  {
    ghost var s := r.Rest();
    var word := r.TakeU32();
    d := d0.(source := ToInt32(word.value));
    assert DecodeSource(d0, s) == SourceFields(d, r.Rest());
    d := TakeFields(r, d);
  }

  method TakeFields(r: Reader, d0: Decoded) returns (d: Decoded)
    requires r.Valid()
    modifies r`i
    ensures d == SourceFields(d0, old(r.Rest()))
  {
    d := d0;
    if d.source == SOURCE_DIALOG_SMALL || d.source == SOURCE_DIALOG_BIG {
      var a := Take64(r);
      var b := Take64(r);
      d := d.(chatID := a, chatAccessHash := b);
    } else if d.source == SOURCE_THUMBNAIL {
      var fileType, _ := Take32(r);
      var thumbType, whole := Take32(r);
      if whole { d := d.(thumbSize := ByteAsString(thumbType)); }
    } else if d.source == SOURCE_STICKER_SET_VERSION {
      var a := Take64(r);
      var b := Take64(r);
      var c, _ := Take32(r);
      d := d.(stickerSetID := a, stickerSetHash := b, thumbVersion := c);
    } else if d.source == SOURCE_FULL_LEGACY {
      var a := Take64(r);
      var b := Take64(r);
      var c, _ := Take32(r);
      d := d.(volumeID := a, secret := b, localID := c);
    } else if d.source == SOURCE_DIALOG_SMALL_LEGACY || d.source == SOURCE_DIALOG_BIG_LEGACY {
      var a := Take64(r);
      var b := Take64(r);
      var v := Take64(r);
      var l, _ := Take32(r);
      d := d.(chatID := a, chatAccessHash := b, volumeID := v, localID := l);
    } else if d.source == SOURCE_STICKER_SET_LEGACY {
      var a := Take64(r);
      var b := Take64(r);
      var v := Take64(r);
      var l, _ := Take32(r);
      d := d.(stickerSetID := a, stickerSetHash := b, volumeID := v, localID := l);
    }
  }

  method TakeWeb(r: Reader, d: Decoded) returns (out: Result<Decoded, DecodeError>)
    requires r.Valid()
    modifies r`i
    ensures out == DecodeWeb(d, old(r.Rest()))
  {
    var url := r.TakeBytes();
    if url.None? { return Err(Truncated); }
    var hash := r.TakeI64();
    if hash.None? { return Err(Truncated); }
    out := Ok(d.(kind := Web, url := url.value, accessHash := hash.value));
  }

  method TakeRemote(r: Reader, d0: Decoded) returns (out: Result<Decoded, DecodeError>)
    requires r.Valid()
    modifies r`i
    ensures out == DecodeRemote(d0, old(r.Rest()))
  {
    var id := r.TakeI64();
    if id.None? { return Err(Truncated); }
    var hash := r.TakeI64();
    if hash.None? { return Err(Truncated); }
    var d := d0.(id := id.value, accessHash := hash.value);
    if IsPhotoType(d.typ) && |r.data| - r.i > 2 {
      d := TakeSource(r, d);
    }
    out := Ok(d);
  }

  method TakeRest(r: Reader, word: int, d: Decoded) returns (out: Result<Decoded, DecodeError>)
    requires r.Valid()
    modifies r`i
    ensures out == DecodeRest(word, d, old(r.Rest()))
  {
    if HasFlag(word, WEB_LOCATION_FLAG) { out := TakeWeb(r, d); } else { out := TakeRemote(r, d); }
  }

  method TakeLocation(data: seq<byte>) returns (out: Result<Decoded, DecodeError>)
    ensures out == DecodeLocation(data)
  {
    if |data| < 6 { return Err(TooShort); }
    var r := new Reader(data);
    var word := r.TakeU32();
    var dc := r.TakeU32();
    if dc.None? { return Err(Truncated); }
    var d := EMPTY.(typ := ClearFlag(ClearFlag(word.value, FILE_REFERENCE_FLAG), WEB_LOCATION_FLAG),
                    dcID := ToInt32(dc.value));
    if HasFlag(word.value, FILE_REFERENCE_FLAG) {
      var ref := r.TakeBytes();
      if ref.None? { return Err(Truncated); }
      d := d.(fileReference := ref.value);
    }
    out := TakeRest(r, word.value, d);
  }

  method TakeGenerated(data: seq<byte>) returns (out: Result<Decoded, DecodeError>)
    ensures out == DecodeGenerated(data)
  {
    var r := new Reader(data);
    var t := r.TakeU32();
    if t.None? { return Err(Truncated); }
    var path := r.TakeBytes();
    if path.None? { return Err(Truncated); }
    var conversion := r.TakeBytes();
    if conversion.None? { return Err(Truncated); }
    out := Generate(t.value, path.value, conversion.value);
  }

  method Decode(fileID: string) returns (out: Result<Decoded, DecodeError>)
    ensures out == FileId.Decode(fileID)
  {
    var raw := Base64.Decode(Base64.UrlSafe, false, fileID);
    if raw.Err? { return Err(BadBase64); }
    var n := |raw.value|;
    if n > 0 && raw.value[n - 1] == GENERATED_VERSION {
      var data := Rle.RleDecode(raw.value[..n - 1]);
      out := TakeGenerated(data);
    } else {
      var data := Rle.RleDecode(raw.value);
      out := TakeLocation(data);
    }
  }
}
