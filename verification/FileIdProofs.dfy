/** Decode inverts every encoder whose layout it reads. */
module FileIdProofs {
  import opened Bytes
  import opened Wire
  import opened FileId
  import opened Conversions
  import Base64
  import Rle

  lemma FlagBits(t: int)
    requires PlainType(t)
    ensures HasFlag(t + FILE_REFERENCE_FLAG, FILE_REFERENCE_FLAG)
            && !HasFlag(t + FILE_REFERENCE_FLAG, WEB_LOCATION_FLAG)
    ensures HasFlag(t + WEB_LOCATION_FLAG, WEB_LOCATION_FLAG) && !HasFlag(t + WEB_LOCATION_FLAG, FILE_REFERENCE_FLAG)
    ensures t + FILE_REFERENCE_FLAG < TWO_32 && t + WEB_LOCATION_FLAG < TWO_32
  {
    var q := t / WEB_LOCATION_FLAG;
    assert t / FILE_REFERENCE_FLAG == q / 2;
    assert q % 4 == 0;
    assert (t + FILE_REFERENCE_FLAG) / FILE_REFERENCE_FLAG == q / 2 + 1;
    assert (t + FILE_REFERENCE_FLAG) / WEB_LOCATION_FLAG == q + 2;
    assert (t + WEB_LOCATION_FLAG) / WEB_LOCATION_FLAG == q + 1;
    assert (t + WEB_LOCATION_FLAG) / FILE_REFERENCE_FLAG == q / 2;
  }

  lemma Next64Back(v: int, tail: seq<byte>)
    requires IsInt64(v)
    ensures Next64(I64(v) + tail) == (v, tail)
  {
    ReadI64Back(v, tail);
  }

  lemma Next32Back(v: int, tail: seq<byte>)
    requires IsInt32(v)
    ensures Next32(U32(v) + tail) == (v, tail)
  {
    ReadU32Back(v, tail);
    Widths();
  }

  lemma RemoteBack(d: Decoded, id: int, accessHash: int, suffix: seq<byte>)
    requires IsInt64(id) && IsInt64(accessHash)
    ensures DecodeRemote(d, I64(id) + (I64(accessHash) + suffix)) ==
            var d' := d.(id := id, accessHash := accessHash);
            Ok(if IsPhotoType(d.typ) && |suffix| > 2 then DecodeSource(d', suffix) else d')
  {
    ReadI64Back(id, I64(accessHash) + suffix);
    ReadI64Back(accessHash, suffix);
  }

  /** Reading the type word and the data center. */
  lemma HeadBack(word: int, dcID: int, tail: seq<byte>)
    requires 0 <= word < TWO_32 && IsInt32(dcID)
    ensures var s := U32(word) + (U32(dcID) + tail);
            |s| >= 6 && ReadU32(s) == Got(word, U32(dcID) + tail)
            && ReadU32(U32(dcID) + tail).Got? && ReadU32(U32(dcID) + tail).rest == tail
            && ToInt32(ReadU32(U32(dcID) + tail).value) == dcID
  {
    ReadU32Back(word, U32(dcID) + tail);
    ReadU32Back(dcID, tail);
  }

  /** DecodeLocation from the reference on. */
  lemma HeadDecoded(word: int, dcID: int, rest: seq<byte>)
    requires 0 <= word < TWO_32 && IsInt32(dcID)
    ensures DecodeLocation(U32(word) + (U32(dcID) + rest)) ==
            var d := EMPTY.(typ := ClearFlag(ClearFlag(word, FILE_REFERENCE_FLAG), WEB_LOCATION_FLAG), dcID := dcID);
            if HasFlag(word, FILE_REFERENCE_FLAG) then
              var ref := ReadPadded(rest);
              if ref.EndOfInput? then Err(Truncated) else DecodeRest(word, d.(fileReference := ref.value), ref.rest)
            else DecodeRest(word, d, rest)
  {
    hide U32, ReadU32, ReadPadded, DecodeRest, HasFlag, ClearFlag, ToInt32;
    HeadBack(word, dcID, rest);
  }

  lemma TypeWordBack(t: int, ref: seq<byte>)
    requires PlainType(t)
    ensures var word := TypeWord(t, ref);
            && 0 <= word < TWO_32 && (HasFlag(word, FILE_REFERENCE_FLAG) <==> ref != [])
            && !HasFlag(word, WEB_LOCATION_FLAG)
            && ClearFlag(ClearFlag(word, FILE_REFERENCE_FLAG), WEB_LOCATION_FLAG) == t
  {
    FlagBits(t);
  }

  lemma ReferenceBack(ref: seq<byte>, tail: seq<byte>)
    requires |ref| < TWO_24
    ensures if ref == [] then Reference(ref) + tail == tail else ReadPadded(Reference(ref) + tail) == Got(ref, tail)
  {
    hide ReadPaddedAt, Padded;
    if ref == [] {
      assert Reference(ref) + tail == tail;
    } else {
      ReadPaddedBack(8, 0, ref, tail);
    }
  }

  /** The common head of every remote file id. */
  lemma LocationBack(t: int, dcID: int, ref: seq<byte>, id: int, accessHash: int, suffix: seq<byte>)
    requires PlainType(t) && IsInt32(dcID) && |ref| < TWO_24 && IsInt64(id) && IsInt64(accessHash)
    ensures DecodeLocation(Location(t, dcID, ref, id, accessHash, suffix)) ==
            var d := EMPTY.(typ := t, dcID := dcID, fileReference := ref, id := id, accessHash := accessHash);
            Ok(if IsPhotoType(t) && |suffix| > 2 then DecodeSource(d, suffix) else d)
  {
    hide DecodeLocation, U32, I64, ReadPadded, DecodeRemote, DecodeSource, HasFlag, ClearFlag, TypeWord, Reference;
    TypeWordBack(t, ref);
    var afterRef := I64(id) + (I64(accessHash) + suffix);
    HeadDecoded(TypeWord(t, ref), dcID, Reference(ref) + (I64(id) + (I64(accessHash) + suffix)));
    RemoteBack(EMPTY.(typ := t, dcID := dcID, fileReference := ref), id, accessHash, suffix);
    ReferenceBack(ref, afterRef);
  }

  // ---------- transport ----------

  predicate Trailed(data: seq<byte>) { |data| >= 2 && data[|data| - 2..] == TRAILER }

  lemma TrailedCat(a: seq<byte>, b: seq<byte>)
    requires Trailed(b)
    ensures Trailed(a + b)
  {
    assert (a + b)[|a + b| - 2..] == b[|b| - 2..];
  }

  lemma LocationTrailed(t: int, dcID: int, ref: seq<byte>, id: int, accessHash: int, suffix: seq<byte>)
    requires Trailed(suffix)
    ensures Trailed(Location(t, dcID, ref, id, accessHash, suffix))
  {
    TrailedCat(I64(accessHash), suffix);
    TrailedCat(I64(id), I64(accessHash) + suffix);
    TrailedCat(Reference(ref), I64(id) + (I64(accessHash) + suffix));
    TrailedCat(U32(dcID), Reference(ref) + (I64(id) + (I64(accessHash) + suffix)));
    TrailedCat(U32(TypeWord(t, ref)), U32(dcID) + (Reference(ref) + (I64(id) + (I64(accessHash) + suffix))));
  }

  lemma LastIsVersion(data: seq<byte>)
    requires Trailed(data)
    ensures var raw := Rle.Compress(data); raw != [] && raw[|raw| - 1] == VERSION
  {
    assert data[|data| - 1] == TRAILER[1] by { assert data[|data| - 2..][1] == TRAILER[1]; }
    Rle.LastByte(data);
  }

  lemma UnwrapBack(raw: seq<byte>)
    ensures Decode(Base64.Encode(Base64.UrlSafe, raw)) == DecodeRaw(raw)
  {
    Base64.RoundTrip(Base64.UrlSafe, false, raw);
  }

  /** Base64, zero-run compression and the trailing version byte: whatever ends in the
      trailer is decoded as a location, and from exactly the bytes that were encoded. */
  lemma TransportBack(data: seq<byte>)
    requires Trailed(data)
    ensures Decode(EncodeRaw(data)) == DecodeLocation(data)
  {
    UnwrapBack(Rle.Compress(data));
    LastIsVersion(data);
    Rle.RoundTrip(data);
  }

  lemma RemoteRoundTrip(t: int, dcID: int, ref: seq<byte>, id: int, accessHash: int, suffix: seq<byte>)
    requires PlainType(t) && IsInt32(dcID) && |ref| < TWO_24 && IsInt64(id) && IsInt64(accessHash)
    requires Trailed(suffix)
    ensures Decode(EncodeRaw(Location(t, dcID, ref, id, accessHash, suffix))) ==
            var d := EMPTY.(typ := t, dcID := dcID, fileReference := ref, id := id, accessHash := accessHash);
            Ok(if IsPhotoType(t) && |suffix| > 2 then DecodeSource(d, suffix) else d)
  {
    LocationTrailed(t, dcID, ref, id, accessHash, suffix);
    TransportBack(Location(t, dcID, ref, id, accessHash, suffix));
    LocationBack(t, dcID, ref, id, accessHash, suffix);
  }

  // ---------- round trips ----------

  lemma DocumentRoundTrip(dcID: int, id: int, accessHash: int, ref: seq<byte>, t: int)
    requires PlainType(t) && IsInt32(dcID) && |ref| < TWO_24 && IsInt64(id) && IsInt64(accessHash)
    ensures Decode(EncodeRaw(DocumentLayout(dcID, id, accessHash, ref, t))) ==
            Ok(EMPTY.(typ := t, dcID := dcID, fileReference := ref, id := id, accessHash := accessHash))
  {
    assert Trailed(TRAILER);
    RemoteRoundTrip(t, dcID, ref, id, accessHash, TRAILER);
  }

  lemma SourceWord(d: Decoded, src: int, s: seq<byte>)
    requires 0 <= src < 10
    ensures DecodeSource(d, U32(src) + s) == SourceFields(d.(source := src), s)
  {
    hide SourceFields;
    ReadU32Back(src, s);
  }

  lemma ThumbnailFields(d: Decoded, t: int, thumbnailType: byte)
    requires t == TYPE_PHOTO || t == TYPE_THUMBNAIL
    ensures ThumbnailSource(d, U32(t) + (U32(thumbnailType) + TRAILER)) == d.(thumbSize := ByteAsString(thumbnailType))
    ensures Trailed(U32(t) + (U32(thumbnailType) + TRAILER))
  {
    Next32Back(t, U32(thumbnailType) + TRAILER);
    Next32Back(thumbnailType, TRAILER);
    TrailedCat(U32(thumbnailType), TRAILER);
    TrailedCat(U32(t), U32(thumbnailType) + TRAILER);
  }

  /** Photo and document thumbnails. The type is kept as the UTF-8 text of its code point. */
  lemma ThumbnailRoundTrip(t: int, dcID: int, id: int, accessHash: int, ref: seq<byte>, thumbnailType: byte)
    requires t == TYPE_PHOTO || t == TYPE_THUMBNAIL
    requires IsInt32(dcID) && |ref| < TWO_24 && IsInt64(id) && IsInt64(accessHash)
    ensures Decode(EncodeRaw(ThumbnailLayout(t, dcID, id, accessHash, ref, thumbnailType))) ==
            Ok(EMPTY.(typ := t, dcID := dcID, fileReference := ref, id := id, accessHash := accessHash,
                      source := SOURCE_THUMBNAIL, thumbSize := ByteAsString(thumbnailType)))
  {
    hide Decode, EncodeRaw;
    var d := EMPTY.(typ := t, dcID := dcID, fileReference := ref, id := id, accessHash := accessHash);
    ThumbnailFields(d.(source := SOURCE_THUMBNAIL), t, thumbnailType);
    SourcedRoundTrip(t, dcID, ref, id, accessHash, SOURCE_THUMBNAIL, U32(t) + (U32(thumbnailType) + TRAILER));
  }

  /** A photo type with a source: what follows the source word is read by its rules. */
  lemma SourcedRoundTrip(t: int, dcID: int, ref: seq<byte>, id: int, accessHash: int, src: int, s: seq<byte>)
    requires IsPhotoType(t) && IsInt32(dcID) && |ref| < TWO_24 && IsInt64(id) && IsInt64(accessHash)
    requires 0 <= src < 10 && Trailed(s)
    ensures Decode(EncodeRaw(Location(t, dcID, ref, id, accessHash, U32(src) + s))) ==
            Ok(SourceFields(EMPTY.(typ := t, dcID := dcID, fileReference := ref, id := id, accessHash := accessHash,
                                   source := src), s))
  {
    TrailedCat(U32(src), s);
    RemoteRoundTrip(t, dcID, ref, id, accessHash, U32(src) + s);
    SourceWord(EMPTY.(typ := t, dcID := dcID, fileReference := ref, id := id, accessHash := accessHash), src, s);
  }

  lemma DialogFields(d: Decoded, chatID: int, chatAccessHash: int)
    requires IsInt64(chatID) && IsInt64(chatAccessHash)
    ensures DialogSource(d, I64(chatID) + (I64(chatAccessHash) + TRAILER)) ==
            d.(chatID := chatID, chatAccessHash := chatAccessHash)
    ensures Trailed(I64(chatID) + (I64(chatAccessHash) + TRAILER))
  {
    Next64Back(chatID, I64(chatAccessHash) + TRAILER);
    Next64Back(chatAccessHash, TRAILER);
    TrailedCat(I64(chatAccessHash), TRAILER);
    TrailedCat(I64(chatID), I64(chatAccessHash) + TRAILER);
  }

  lemma DialogPhotoRoundTrip(dcID: int, photoID: int, chatID: int, chatAccessHash: int, isBig: bool)
    requires IsInt32(dcID) && IsInt64(photoID) && IsInt64(chatID) && IsInt64(chatAccessHash)
    ensures Decode(EncodeRaw(DialogPhotoLayout(dcID, photoID, chatID, chatAccessHash, isBig))) ==
            Ok(EMPTY.(typ := TYPE_PROFILE_PHOTO, dcID := dcID, id := photoID,
                      source := if isBig then SOURCE_DIALOG_BIG else SOURCE_DIALOG_SMALL,
                      chatID := chatID, chatAccessHash := chatAccessHash))
  {
    hide Decode, EncodeRaw;
    var src := if isBig then SOURCE_DIALOG_BIG else SOURCE_DIALOG_SMALL;
    DialogFields(EMPTY.(typ := TYPE_PROFILE_PHOTO, dcID := dcID, id := photoID, source := src), chatID, chatAccessHash);
    SourcedRoundTrip(TYPE_PROFILE_PHOTO, dcID, [], photoID, 0, src, I64(chatID) + (I64(chatAccessHash) + TRAILER));
  }

  lemma StickerSetFields(d: Decoded, setID: int, setAccessHash: int, thumbVersion: int)
    requires IsInt64(setID) && IsInt64(setAccessHash) && IsInt32(thumbVersion)
    ensures var s := I64(setID) + (I64(setAccessHash) + (U32(thumbVersion) + TRAILER));
            Trailed(s) && StickerSetSource(d, s) ==
                          d.(stickerSetID := setID, stickerSetHash := setAccessHash, thumbVersion := thumbVersion)
  {
    var s3 := U32(thumbVersion) + TRAILER;
    Next64Back(setID, I64(setAccessHash) + s3);
    Next64Back(setAccessHash, s3);
    Next32Back(thumbVersion, TRAILER);
    LongTrailed(setAccessHash, thumbVersion);
    TrailedCat(I64(setID), I64(setAccessHash) + s3);
  }

  lemma StickerSetThumbRoundTrip(dcID: int, setID: int, setAccessHash: int, thumbVersion: int)
    requires IsInt32(dcID) && IsInt64(setID) && IsInt64(setAccessHash) && IsInt32(thumbVersion)
    ensures Decode(EncodeRaw(StickerSetThumbLayout(dcID, setID, setAccessHash, thumbVersion))) ==
            Ok(EMPTY.(typ := TYPE_THUMBNAIL, dcID := dcID, source := SOURCE_STICKER_SET_VERSION,
                      stickerSetID := setID, stickerSetHash := setAccessHash, thumbVersion := thumbVersion))
  {
    hide Decode, EncodeRaw;
    StickerSetFields(EMPTY.(typ := TYPE_THUMBNAIL, dcID := dcID, source := SOURCE_STICKER_SET_VERSION),
                     setID, setAccessHash, thumbVersion);
    SourcedRoundTrip(TYPE_THUMBNAIL, dcID, [], 0, 0, SOURCE_STICKER_SET_VERSION,
                     I64(setID) + (I64(setAccessHash) + (U32(thumbVersion) + TRAILER)));
  }

  lemma LongTrailed(long: int, word: int)
    ensures Trailed(I64(long) + (U32(word) + TRAILER))
  {
    TrailedCat(U32(word), TRAILER);
    TrailedCat(I64(long), U32(word) + TRAILER);
  }

  lemma FullLegacyFields(d: Decoded, volumeID: int, localID: int, secret: int)
    requires IsInt64(volumeID) && IsInt32(localID) && IsInt64(secret)
    ensures var s := I64(volumeID) + (I64(secret) + (U32(localID) + TRAILER));
            Trailed(s) && FullLegacySource(d, s) == d.(volumeID := volumeID, localID := localID, secret := secret)
  {
    var s3 := U32(localID) + TRAILER;
    Next64Back(volumeID, I64(secret) + s3);
    Next64Back(secret, s3);
    Next32Back(localID, TRAILER);
    LongTrailed(secret, localID);
    TrailedCat(I64(volumeID), I64(secret) + s3);
  }

  lemma FullLegacyRoundTrip(dcID: int, photoID: int, accessHash: int, ref: seq<byte>,
                            volumeID: int, localID: int, secret: int, t: int)
    requires IsPhotoType(t) && IsInt32(dcID) && IsInt64(photoID) && IsInt64(accessHash) && |ref| < TWO_24
    requires IsInt64(volumeID) && IsInt32(localID) && IsInt64(secret)
    ensures Decode(EncodeRaw(FullLegacyLayout(dcID, photoID, accessHash, ref, volumeID, localID, secret, t))) ==
            Ok(EMPTY.(typ := t, dcID := dcID, fileReference := ref, id := photoID, accessHash := accessHash,
                      source := SOURCE_FULL_LEGACY, volumeID := volumeID, localID := localID, secret := secret))
  {
    hide Decode, EncodeRaw;
    FullLegacyFields(EMPTY.(typ := t, dcID := dcID, fileReference := ref, id := photoID, accessHash := accessHash,
                            source := SOURCE_FULL_LEGACY), volumeID, localID, secret);
    SourcedRoundTrip(t, dcID, ref, photoID, accessHash, SOURCE_FULL_LEGACY,
                     I64(volumeID) + (I64(secret) + (U32(localID) + TRAILER)));
  }

  lemma DialogLegacyFields(d: Decoded, chatID: int, chatAccessHash: int, volumeID: int, localID: int)
    requires IsInt64(chatID) && IsInt64(chatAccessHash) && IsInt64(volumeID) && IsInt32(localID)
    ensures var s := I64(chatID) + (I64(chatAccessHash) + (I64(volumeID) + (U32(localID) + TRAILER)));
            Trailed(s) && DialogLegacySource(d, s) ==
                          d.(chatID := chatID, chatAccessHash := chatAccessHash,
                                volumeID := volumeID, localID := localID)
  {
    var s3 := I64(volumeID) + (U32(localID) + TRAILER);
    Next64Back(chatID, I64(chatAccessHash) + s3);
    Next64Back(chatAccessHash, s3);
    Next64Back(volumeID, U32(localID) + TRAILER);
    Next32Back(localID, TRAILER);
    LongTrailed(volumeID, localID);
    TrailedCat(I64(chatAccessHash), s3);
    TrailedCat(I64(chatID), I64(chatAccessHash) + s3);
  }

  lemma DialogLegacyRoundTrip(dcID: int, photoID: int, chatID: int, chatAccessHash: int, isBig: bool,
                             volumeID: int, localID: int)
    requires IsInt32(dcID) && IsInt64(photoID) && IsInt64(chatID) && IsInt64(chatAccessHash)
    requires IsInt64(volumeID) && IsInt32(localID)
    ensures Decode(EncodeRaw(DialogLegacyLayout(dcID, photoID, chatID, chatAccessHash, isBig, volumeID, localID))) ==
            Ok(EMPTY.(typ := TYPE_PROFILE_PHOTO, dcID := dcID, id := photoID,
                      source := if isBig then SOURCE_DIALOG_BIG_LEGACY else SOURCE_DIALOG_SMALL_LEGACY,
                      chatID := chatID, chatAccessHash := chatAccessHash, volumeID := volumeID, localID := localID))
  {
    hide Decode, EncodeRaw;
    var src := if isBig then SOURCE_DIALOG_BIG_LEGACY else SOURCE_DIALOG_SMALL_LEGACY;
    DialogLegacyFields(EMPTY.(typ := TYPE_PROFILE_PHOTO, dcID := dcID, id := photoID, source := src),
                       chatID, chatAccessHash, volumeID, localID);
    SourcedRoundTrip(TYPE_PROFILE_PHOTO, dcID, [], photoID, 0, src,
                     I64(chatID) + (I64(chatAccessHash) + (I64(volumeID) + (U32(localID) + TRAILER))));
  }

  lemma StickerSetLegacyFields(d: Decoded, setID: int, setAccessHash: int, volumeID: int, localID: int)
    requires IsInt64(setID) && IsInt64(setAccessHash) && IsInt64(volumeID) && IsInt32(localID)
    ensures var s := I64(setID) + (I64(setAccessHash) + (I64(volumeID) + (U32(localID) + TRAILER)));
            Trailed(s) && StickerSetLegacySource(d, s) ==
                          d.(stickerSetID := setID, stickerSetHash := setAccessHash,
                                volumeID := volumeID, localID := localID)
  {
    DialogLegacyFields(d, setID, setAccessHash, volumeID, localID);
  }

  lemma StickerSetLegacyRoundTrip(dcID: int, setID: int, setAccessHash: int, volumeID: int, localID: int)
    requires IsInt32(dcID) && IsInt64(setID) && IsInt64(setAccessHash) && IsInt64(volumeID) && IsInt32(localID)
    ensures Decode(EncodeRaw(StickerSetLegacyLayout(dcID, setID, setAccessHash, volumeID, localID))) ==
            Ok(EMPTY.(typ := TYPE_THUMBNAIL, dcID := dcID, source := SOURCE_STICKER_SET_LEGACY,
                      stickerSetID := setID, stickerSetHash := setAccessHash, volumeID := volumeID, localID := localID))
  {
    hide Decode, EncodeRaw;
    StickerSetLegacyFields(EMPTY.(typ := TYPE_THUMBNAIL, dcID := dcID, source := SOURCE_STICKER_SET_LEGACY),
                           setID, setAccessHash, volumeID, localID);
    SourcedRoundTrip(TYPE_THUMBNAIL, dcID, [], 0, 0, SOURCE_STICKER_SET_LEGACY,
                     I64(setID) + (I64(setAccessHash) + (I64(volumeID) + (U32(localID) + TRAILER))));
  }

  lemma WebBack(d: Decoded, url: seq<byte>, accessHash: int)
    requires |url| < TWO_24 && IsInt64(accessHash)
    ensures DecodeWeb(d, Padded(8, url) + (I64(accessHash) + TRAILER)) ==
            Ok(d.(kind := Web, url := url, accessHash := accessHash))
  {
    ReadPaddedBack(8, 0, url, I64(accessHash) + TRAILER);
    ReadI64Back(accessHash, TRAILER);
  }

  lemma WebTrailed(t: int, url: seq<byte>, accessHash: int)
    ensures Trailed(WebLayout(t, url, accessHash))
  {
    var s2 := I64(accessHash) + TRAILER;
    var s1 := Padded(8, url) + s2;
    TrailedCat(I64(accessHash), TRAILER);
    TrailedCat(Padded(8, url), s2);
    TrailedCat(U32(0), s1);
    TrailedCat(U32(SetFlag(t, WEB_LOCATION_FLAG)), U32(0) + s1);
  }

  lemma WebLocation(t: int, s: seq<byte>)
    requires PlainType(t)
    ensures DecodeLocation(U32(SetFlag(t, WEB_LOCATION_FLAG)) + (U32(0) + s)) == DecodeWeb(EMPTY.(typ := t), s)
  {
    hide DecodeWeb;
    FlagBits(t);
    HeadBack(SetFlag(t, WEB_LOCATION_FLAG), 0, s);
  }

  lemma WebRoundTrip(t: int, url: seq<byte>, accessHash: int)
    requires PlainType(t) && |url| < TWO_24 && IsInt64(accessHash)
    ensures Decode(EncodeRaw(WebLayout(t, url, accessHash))) ==
            Ok(EMPTY.(kind := Web, typ := t, url := url, accessHash := accessHash))
  {
    WebTrailed(t, url, accessHash);
    TransportBack(WebLayout(t, url, accessHash));
    WebLocation(t, Padded(8, url) + (I64(accessHash) + TRAILER));
    WebBack(EMPTY.(typ := t), url, accessHash);
  }

  lemma GeneratedReads(path: seq<byte>, conversion: seq<byte>)
    requires |path| < TWO_24 && |conversion| < TWO_24
    ensures var c := Padded(4 + |Padded(4, path)|, conversion);
            ReadPadded(Padded(4, path) + c) == Got(path, c) && ReadPadded(c) == Got(conversion, [])
  {
    var n := 4 + |Padded(4, path)|;
    assert n % 4 == 0;
    var c := Padded(n, conversion);
    assert c != [];
    ReadPaddedBack(4, 0, path, c);
    ReadPaddedBack(n, 0, conversion, []);
    assert c + [] == c;
  }

  lemma TypeBack(t: int, tail: seq<byte>)
    requires 0 <= t < TWO_32
    ensures ReadU32(U32(t) + tail) == Got(t, tail)
  {
    ReadU32Back(t, tail);
  }

  lemma GeneratedFields(t: int, path: seq<byte>, conversion: seq<byte>, s1: seq<byte>, s2: seq<byte>)
    requires 0 <= t < TWO_32
    requires ReadPadded(s1) == Got(path, s2) && ReadPadded(s2) == Got(conversion, [])
    ensures DecodeGenerated(U32(t) + s1) == Generate(t, path, conversion)
  {
    TypeBack(t, s1);
  }

  lemma GeneratedBack(t: int, path: seq<byte>, conversion: seq<byte>)
    requires 0 <= t < TWO_32 && |path| < TWO_24 && |conversion| < TWO_24
    ensures DecodeGenerated(GeneratedLayout(t, path, conversion)) == Generate(t, path, conversion)
  {
    var c := Padded(4 + |Padded(4, path)|, conversion);
    GeneratedReads(path, conversion);
    GeneratedFields(t, path, conversion, Padded(4, path) + c, c);
  }

  lemma GeneratedTransport(t: int, path: seq<byte>, conversion: seq<byte>)
    ensures Decode(EncodeGenerated(t, path, conversion)) == DecodeGenerated(GeneratedLayout(t, path, conversion))
  {
    var data := GeneratedLayout(t, path, conversion);
    var raw := Rle.Compress(data) + [GENERATED_VERSION];
    UnwrapBack(raw);
    assert raw[..|raw| - 1] == Rle.Compress(data);
    Rle.RoundTrip(data);
  }

  lemma GeneratedRoundTrip(t: int, path: seq<byte>, conversion: seq<byte>)
    requires 0 <= t < TWO_32 && |path| < TWO_24 && |conversion| < TWO_24
    ensures Decode(EncodeGenerated(t, path, conversion)) == Generate(t, path, conversion)
  {
    GeneratedTransport(t, path, conversion);
    GeneratedBack(t, path, conversion);
  }
}
