/** The bytes behind every file_id and file_unique_id, field by field with the numbers the
    format fixes: source kinds, flags, classes, tags and version bytes. */
module FileIdBytes {
  import opened Bytes
  import opened Wire
  import opened FileId
  import opened FileIdProofs
  import opened UniqueId
  import opened Conversions
  import Base64
  import Rle

  /** The common head: a type word, which has bit 25 if there is a file reference, the data
      center, the reference padded to four bytes, id and access hash. */
  function Head(t: int, dc: int, ref: seq<byte>, id: int, hash: int, k: seq<byte>): seq<byte> {
    if ref == [] then U32(t) + (U32(dc) + (I64(id) + (I64(hash) + k)))
    else U32(t + 0x200_0000) + (U32(dc) + (Padded(8, ref) + (I64(id) + (I64(hash) + k))))
  }

  lemma LocationIsHead(t: int, dc: int, ref: seq<byte>, id: int, hash: int, k: seq<byte>)
    requires PlainType(t)
    ensures Location(t, dc, ref, id, hash, k) == Head(t, dc, ref, id, hash, k)
  {
    hide U32, I64, Padded;
    if ref == [] { assert [] + (I64(id) + (I64(hash) + k)) == I64(id) + (I64(hash) + k); }
  }

  lemma SmallTypesPlain()
    ensures PlainType(0) && PlainType(1) && PlainType(2)
  {
  }

  lemma DocumentBytes(dc: int, id: int, hash: int, ref: seq<byte>, t: int)
    requires PlainType(t)
    ensures DocumentLayout(dc, id, hash, ref, t) == Head(t, dc, ref, id, hash, [60, 4])
  {
    LocationIsHead(t, dc, ref, id, hash, TRAILER);
  }

  /** A photo size has source 1, the file type again, and its letter. */
  lemma ThumbnailBytes(t: int, dc: int, id: int, hash: int, ref: seq<byte>, letter: byte)
    requires PlainType(t)
    ensures ThumbnailLayout(t, dc, id, hash, ref, letter)
            == Head(t, dc, ref, id, hash, U32(1) + (U32(t) + (U32(letter) + [60, 4])))
  {
    hide U32, Location, Head;
    LocationIsHead(t, dc, ref, id, hash, U32(1) + (U32(t) + (U32(letter) + [60, 4])));
  }

  /** A chat photo is of type 1 and has source 2 or, big, 3, with the chat; in the legacy form
      6 or 7, with volume and local id besides. */
  lemma DialogPhotoBytes(dc: int, id: int, chat: int, hash: int, vol: int, loc: int)
    ensures DialogPhotoLayout(dc, id, chat, hash, false)
            == Head(1, dc, [], id, 0, U32(2) + (I64(chat) + (I64(hash) + [60, 4])))
    ensures DialogPhotoLayout(dc, id, chat, hash, true)
            == Head(1, dc, [], id, 0, U32(3) + (I64(chat) + (I64(hash) + [60, 4])))
    ensures DialogLegacyLayout(dc, id, chat, hash, false, vol, loc)
            == Head(1, dc, [], id, 0, U32(6) + (I64(chat) + (I64(hash) + (I64(vol) + (U32(loc) + [60, 4])))))
    ensures DialogLegacyLayout(dc, id, chat, hash, true, vol, loc)
            == Head(1, dc, [], id, 0, U32(7) + (I64(chat) + (I64(hash) + (I64(vol) + (U32(loc) + [60, 4])))))
  {
    hide U32, I64, Location, Head, PlainType;
    SmallTypesPlain();
    LocationIsHead(1, dc, [], id, 0, U32(2) + (I64(chat) + (I64(hash) + [60, 4])));
    LocationIsHead(1, dc, [], id, 0, U32(3) + (I64(chat) + (I64(hash) + [60, 4])));
    LocationIsHead(1, dc, [], id, 0, U32(6) + (I64(chat) + (I64(hash) + (I64(vol) + (U32(loc) + [60, 4])))));
    LocationIsHead(1, dc, [], id, 0, U32(7) + (I64(chat) + (I64(hash) + (I64(vol) + (U32(loc) + [60, 4])))));
  }

  /** A sticker set's thumbnail is of type 0 without id and hash of its own: source 9 with the
      version, or 8 in the legacy form with volume and local id. */
  lemma StickerSetBytes(dc: int, setID: int, hash: int, version: int, vol: int, loc: int)
    ensures StickerSetThumbLayout(dc, setID, hash, version)
            == Head(0, dc, [], 0, 0, U32(9) + (I64(setID) + (I64(hash) + (U32(version) + [60, 4]))))
    ensures StickerSetLegacyLayout(dc, setID, hash, vol, loc)
            == Head(0, dc, [], 0, 0, U32(8) + (I64(setID) + (I64(hash) + (I64(vol) + (U32(loc) + [60, 4])))))
  {
    hide U32, I64, Location, Head, PlainType;
    SmallTypesPlain();
    LocationIsHead(0, dc, [], 0, 0, U32(9) + (I64(setID) + (I64(hash) + (U32(version) + [60, 4]))));
    LocationIsHead(0, dc, [], 0, 0, U32(8) + (I64(setID) + (I64(hash) + (I64(vol) + (U32(loc) + [60, 4])))));
  }

  /** The full legacy form has source 5 with volume, secret and local id, in this order. */
  lemma FullLegacyBytes(dc: int, id: int, hash: int, ref: seq<byte>, vol: int, loc: int, secret: int, t: int)
    requires PlainType(t)
    ensures FullLegacyLayout(dc, id, hash, ref, vol, loc, secret, t)
            == Head(t, dc, ref, id, hash, U32(5) + (I64(vol) + (I64(secret) + (U32(loc) + [60, 4]))))
  {
    hide U32, I64, Location, Head;
    LocationIsHead(t, dc, ref, id, hash, U32(5) + (I64(vol) + (I64(secret) + (U32(loc) + [60, 4]))));
  }

  /** A web file has bit 24 in its type word, no data center, its address and the hash; a
      generated one its type and two byte strings. */
  lemma WebAndGeneratedBytes(t: int, url: seq<byte>, hash: int, path: seq<byte>, conversion: seq<byte>)
    requires PlainType(t)
    ensures WebLayout(t, url, hash) == U32(t + 0x100_0000) + (U32(0) + (Padded(8, url) + (I64(hash) + [60, 4])))
    ensures var p := Padded(4, path); GeneratedLayout(t, path, conversion) == U32(t) + (p + Padded(4 + |p|, conversion))
  {
    hide U32, I64, Padded;
  }

  /** Only what ends in byte 3 is a generated file; every other encoder ends in 60 and 4. */
  lemma Endings(raw: seq<byte>)
    ensures TRAILER == [60, 4]
    ensures raw != [] && raw[|raw| - 1] == 3 ==> DecodeRaw(raw) == DecodeGenerated(Rle.Expand(raw[..|raw| - 1]))
    ensures raw == [] || raw[|raw| - 1] != 3 ==> DecodeRaw(raw) == DecodeLocation(Rle.Expand(raw))
  {
    hide DecodeGenerated, DecodeLocation;
  }

  // ---------- unique ids ----------

  /** The file types that are photos: thumbnail, profile photo, photo, encrypted thumbnail,
      wallpaper, photo story, self-destructing photo. */
  predicate IsPhotoClass(t: int) { t == 0 || t == 1 || t == 2 || t == 11 || t == 12 || t == 20 || t == 22 }

  /** Secure raw and secure document. */
  predicate IsSecureClass(t: int) { t == 14 || t == 15 }

  /** Two file types share a class exactly if both are photos, both are secure, both are
      neither, encrypted or temporary, or they are the same. */
  lemma SharedClass(t: int, u: int)
    ensures TypeClass(t) == TypeClass(u) <==>
              || t == u || (IsPhotoClass(t) && IsPhotoClass(u)) || (IsSecureClass(t) && IsSecureClass(u))
              || (!IsPhotoClass(t) && !IsSecureClass(t) && t != 6 && t != 7
                  && !IsPhotoClass(u) && !IsSecureClass(u) && u != 6 && u != 7)
    ensures TypeClass(2) == 1 && TypeClass(5) == 2 && TypeClass(14) == 3 && TypeClass(6) == 4 && TypeClass(7) == 5
  {
  }

  /** What is hashed into a unique id: the class, and what tells files of it apart. */
  lemma UniqueBytes(t: int, id: int, letter: byte, setID: int, version: int, vol: int, loc: int)
    ensures UniqueLayout(DocumentKey(TypeClass(t), id)) == U32(TypeClass(t)) + I64(id)
    ensures UniqueLayout(PhotoKey(id, CompareByte(letter)))
            == [1, 0, 0, 0]
               + (I64(id) + [if letter == 0x61 then 0 else if letter == 0x63 then 1 else (letter + 5) % 256])
    ensures UniqueLayout(StickerSetKey(setID, version)) == [1, 0, 0, 0] + ([2] + (I64(setID) + U32(version)))
    ensures UniqueLayout(LegacyKey(vol, loc)) == [1, 0, 0, 0] + ([3] + (I64(vol) + U32(loc)))
  {
    WordBytes(1);
    hide I64, U32;
  }

  lemma GeneratedUniqueBytes(t: int, path: seq<byte>, conversion: seq<byte>)
    ensures var p := Padded(5, path);
            UniqueLayout(GeneratedKey(t, path, conversion)) == [0xFF] + (U32(t) + (p + Padded(5 + |p|, conversion)))
  {
    hide U32, Padded;
  }

  /** What a generated file_id means: nothing but a thumbnail (0) or an encrypted one (11) with
      a conversion that is understood is accepted, and what is wrong is looked at in this
      order: a negative zoom, the file type, the conversion. */
  lemma GeneratedAccepted(t: int, path: seq<byte>, conversion: seq<byte>)
    requires 0 <= t < TWO_32 && |path| < TWO_24 && |conversion| < TWO_24
    ensures var r, c := Decode(EncodeGenerated(t, path, conversion)), ParseConversion(conversion);
            && (r == Err(ShiftPanic) <==> c.NegativeZoom?)
            && (r == Err(UnsupportedType) <==> !c.NegativeZoom? && t != 0 && t != 11)
            && (r == Err(UnexpectedConversion) <==> c.Unknown? && (t == 0 || t == 11))
            && (r.Ok? <==> (c.AudioThumb? || c.MapTile?) && (t == 0 || t == 11))
            && (r.Ok? ==> r.value.kind.Generated? && r.value.typ == t && r.value.originalPath == path
                          && r.value.conversion == conversion && r.value.generated == c)
  {
    hide Decode, EncodeGenerated, ParseConversion;
    GeneratedRoundTrip(t, path, conversion);
  }

  /** File ids are written with letters, digits, '-' and '_' only, and without padding. */
  lemma {:induction false} WebSafe(data: seq<byte>)
    ensures forall i :: 0 <= i < |Base64.Encode(Base64.UrlSafe, data)| ==>
              var c := Base64.Encode(Base64.UrlSafe, data)[i];
              'A' <= c <= 'Z' || 'a' <= c <= 'z' || '0' <= c <= '9' || c == '-' || c == '_'
  {
    if |data| >= 3 { WebSafe(data[3..]); }
  }

  predicate IsWebSafe(s: string) {
    forall i :: 0 <= i < |s| ==>
      'A' <= s[i] <= 'Z' || 'a' <= s[i] <= 'z' || '0' <= s[i] <= '9' || s[i] == '-' || s[i] == '_'
  }

  lemma IdsWebSafe(data: seq<byte>, t: int, path: seq<byte>, conversion: seq<byte>)
    ensures IsWebSafe(EncodeRaw(data)) && IsWebSafe(EncodeGenerated(t, path, conversion))
  {
    WebSafe(Rle.Compress(data));
    WebSafe(Rle.Compress(GeneratedLayout(t, path, conversion)) + [GENERATED_VERSION]);
  }

  // ---------- what cannot be decoded ----------

  /** The flags are the two low bits of the word's last byte. */
  lemma FlagByte(word: seq<byte>)
    requires |word| == 4
    ensures var w := FromLittleEndian(word);
            word[3] % 4 == 0 <==> !HasFlag(w, FILE_REFERENCE_FLAG) && !HasFlag(w, WEB_LOCATION_FLAG)
  {
    var b0: int, b1: int, b2: int, b3: int := word[0], word[1], word[2], word[3];
    var low := b0 + 256 * (b1 + 256 * b2);
    assert FromLittleEndian(word) == low + TWO_24 * b3 by {
      assert word[1..][1..] == word[2..] && word[2..][1..] == word[3..] && word[3..][1..] == [];
      assert FromLittleEndian(word[3..]) == b3;
      assert FromLittleEndian(word[2..]) == b2 + 256 * b3;
      assert FromLittleEndian(word[1..]) == b1 + 256 * (b2 + 256 * b3);
    }
    assert (low + TWO_24 * b3) / TWO_24 == b3;
    assert (low + TWO_24 * b3) / (2 * TWO_24) == b3 / 2;
  }

  lemma RemoteLength(d: Decoded, s: seq<byte>)
    ensures if |s| <= 8 then DecodeRemote(d, s) == Err(Truncated) else DecodeRemote(d, s).Ok?
  {
    hide FromLittleEndian, ToInt64, DecodeSource, Rle.Zeros;
  }

  lemma LocationLength(data: seq<byte>)
    ensures DecodeLocation(data) == Err(TooShort) <==> |data| < 6
    ensures |data| >= 6 && data[3] % 4 == 0 ==>
              if |data| <= 16 then DecodeLocation(data) == Err(Truncated) else DecodeLocation(data).Ok?
  {
    hide FromLittleEndian, ToInt32, DecodeRemote, ReadPadded, ClearFlag, HasFlag, Rle.Zeros;
    if |data| >= 6 {
      FlagByte(data[..4]);
      var word, dc := ReadU32(data), ReadU32(data[4..]);
      assert word.rest == data[4..] && |dc.rest| == if |data| < 8 then 0 else |data| - 8;
      forall d, s { RemoteLength(d, s); }
    }
  }

  /** Fewer than six bytes are too short; a location without flags needs more than sixteen,
      because a field that is there in part reads as if zeros followed. */
  lemma ShortLocation(raw: seq<byte>)
    requires raw == [] || raw[|raw| - 1] != 3
    ensures var data := Rle.Expand(raw);
            && (DecodeRaw(raw) == Err(TooShort) <==> |data| < 6)
            && (|data| >= 6 && data[3] % 4 == 0 ==>
                  if |data| <= 16 then DecodeRaw(raw) == Err(Truncated) else DecodeRaw(raw).Ok?)
  {
    hide DecodeLocation, DecodeGenerated;
    LocationLength(Rle.Expand(raw));
  }

  lemma RawIsBytes(raw: seq<byte>)
    ensures DecodeRaw(raw) != Err(BadBase64)
  {
    hide FromLittleEndian, ReadPadded, Rle.Expand, DecodeSource;
  }

  /** A string that is no unpadded base64 of the web-safe alphabet gives one error, no other
      string does. */
  lemma BadBase64Iff(s: string)
    requires forall i :: 0 <= i < |s| ==> s[i] != '\n' && s[i] != '\r'
    ensures Decode(s) == Err(BadBase64) <==> |s| % 4 == 1 || !Base64.InTable(Base64.UrlSafe, s)
  {
    hide DecodeRaw, Base64.Decode, Base64.IsSymbol;
    Base64.DecodesIff(Base64.UrlSafe, false, s);
    forall raw { RawIsBytes(raw); }
  }
}
