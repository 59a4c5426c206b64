/** file_id strings (internal/fileid/fileid.go): what each encoder writes and what Decode
    reads back. */
module FileId {
  import opened Bytes
  import opened Wire
  import Base64
  import Rle
  import opened Conversions

  const TYPE_THUMBNAIL := 0
  const TYPE_PROFILE_PHOTO := 1
  const TYPE_PHOTO := 2
  const TYPE_ENCRYPTED_THUMBNAIL := 11

  const SOURCE_THUMBNAIL := 1
  const SOURCE_DIALOG_SMALL := 2
  const SOURCE_DIALOG_BIG := 3
  const SOURCE_FULL_LEGACY := 5
  const SOURCE_DIALOG_SMALL_LEGACY := 6
  const SOURCE_DIALOG_BIG_LEGACY := 7
  const SOURCE_STICKER_SET_LEGACY := 8
  const SOURCE_STICKER_SET_VERSION := 9

  const SUB_VERSION: byte := 60
  const VERSION: byte := 4
  const GENERATED_VERSION: byte := 3
  const FILE_REFERENCE_FLAG := 0x200_0000
  const WEB_LOCATION_FLAG := 0x100_0000

  datatype Kind = Remote | Web | Generated

  datatype Decoded = Decoded(
    kind: Kind, typ: int, dcID: int, id: int, accessHash: int, url: seq<byte>, fileReference: seq<byte>,
    source: int, chatID: int, chatAccessHash: int, thumbSize: seq<byte>,
    stickerSetID: int, stickerSetHash: int, thumbVersion: int,
    volumeID: int, localID: int, secret: int,
    originalPath: seq<byte>, conversion: seq<byte>, generated: Conversion)

  datatype DecodeError = BadBase64 | TooShort | Truncated | UnsupportedType | UnexpectedConversion | ShiftPanic

  const EMPTY := Decoded(Remote, 0, 0, 0, 0, [], [], 0, 0, 0, [], 0, 0, 0, 0, 0, 0, [], [], Unknown)

  // ---------- type word ----------

  predicate HasFlag(word: int, flag: int)
    requires flag > 0
  {
    word / flag % 2 == 1
  }

  function SetFlag(word: int, flag: int): int
    requires flag > 0
  {
    if HasFlag(word, flag) then word else word + flag
  }

  function ClearFlag(word: int, flag: int): int
    requires flag > 0
  {
    if HasFlag(word, flag) then word - flag else word
  }

  /** A 32-bit file type that uses neither flag bit. */
  predicate PlainType(t: int) {
    0 <= t < TWO_32 && !HasFlag(t, FILE_REFERENCE_FLAG) && !HasFlag(t, WEB_LOCATION_FLAG)
  }

  predicate IsPhotoType(t: int) { t == TYPE_PHOTO || t == TYPE_THUMBNAIL || t == TYPE_PROFILE_PHOTO }

  // ---------- layouts ----------

  const TRAILER: seq<byte> := [SUB_VERSION, VERSION]

  function TypeWord(t: int, ref: seq<byte>): int { if |ref| > 0 then SetFlag(t, FILE_REFERENCE_FLAG) else t }

  function Reference(ref: seq<byte>): seq<byte> { if |ref| > 0 then Padded(8, ref) else [] }

  /** What every remote file id starts with; suffix is the photo source and the trailer. */
  function Location(t: int, dcID: int, ref: seq<byte>, id: int, accessHash: int, suffix: seq<byte>): seq<byte> {
    U32(TypeWord(t, ref)) + (U32(dcID) + (Reference(ref) + (I64(id) + (I64(accessHash) + suffix))))
  }

  function DocumentLayout(dcID: int, id: int, accessHash: int, ref: seq<byte>, t: int): seq<byte> {
    Location(t, dcID, ref, id, accessHash, TRAILER)
  }

  /** EncodeThumbnailPhoto for t = photo, EncodeDocumentThumbnail for t = thumbnail. */
  function ThumbnailLayout(t: int, dcID: int, id: int, accessHash: int,
                             ref: seq<byte>, thumbnailType: byte): seq<byte> {
    Location(t, dcID, ref, id, accessHash, U32(SOURCE_THUMBNAIL) + (U32(t) + (U32(thumbnailType) + TRAILER)))
  }

  function DialogPhotoLayout(dcID: int, photoID: int, chatID: int, chatAccessHash: int, isBig: bool): seq<byte> {
    Location(TYPE_PROFILE_PHOTO, dcID, [], photoID, 0,
             U32(if isBig then SOURCE_DIALOG_BIG else SOURCE_DIALOG_SMALL) +
               (I64(chatID) + (I64(chatAccessHash) + TRAILER)))
  }

  function StickerSetThumbLayout(dcID: int, setID: int, setAccessHash: int, thumbVersion: int): seq<byte> {
    Location(TYPE_THUMBNAIL, dcID, [], 0, 0,
             U32(SOURCE_STICKER_SET_VERSION) + (I64(setID) + (I64(setAccessHash) + (U32(thumbVersion) + TRAILER))))
  }

  function FullLegacyLayout(dcID: int, photoID: int, accessHash: int, ref: seq<byte>,
                            volumeID: int, localID: int, secret: int, t: int): seq<byte> {
    Location(t, dcID, ref, photoID, accessHash,
             U32(SOURCE_FULL_LEGACY) + (I64(volumeID) + (I64(secret) + (U32(localID) + TRAILER))))
  }

  function DialogLegacyLayout(dcID: int, photoID: int, chatID: int, chatAccessHash: int, isBig: bool,
                              volumeID: int, localID: int): seq<byte> {
    Location(TYPE_PROFILE_PHOTO, dcID, [], photoID, 0,
             U32(if isBig then SOURCE_DIALOG_BIG_LEGACY else SOURCE_DIALOG_SMALL_LEGACY)
             + (I64(chatID) + (I64(chatAccessHash) + (I64(volumeID) + (U32(localID) + TRAILER)))))
  }

  function StickerSetLegacyLayout(dcID: int, setID: int, setAccessHash: int, volumeID: int, localID: int): seq<byte> {
    Location(TYPE_THUMBNAIL, dcID, [], 0, 0,
             U32(SOURCE_STICKER_SET_LEGACY) +
               (I64(setID) + (I64(setAccessHash) + (I64(volumeID) + (U32(localID) + TRAILER)))))
  }

  function WebLayout(t: int, url: seq<byte>, accessHash: int): seq<byte> {
    U32(SetFlag(t, WEB_LOCATION_FLAG)) + (U32(0) + (Padded(8, url) + (I64(accessHash) + TRAILER)))
  }

  function GeneratedLayout(t: int, path: seq<byte>, conversion: seq<byte>): seq<byte> {
    U32(t) + (Padded(4, path) + Padded(4 + |Padded(4, path)|, conversion))
  }

  function EncodeRaw(data: seq<byte>): string { Base64.Encode(Base64.UrlSafe, Rle.Compress(data)) }

  function EncodeGenerated(t: int, path: seq<byte>, conversion: seq<byte>): string {
    Base64.Encode(Base64.UrlSafe, Rle.Compress(GeneratedLayout(t, path, conversion)) + [GENERATED_VERSION])
  }

  // ---------- decoding ----------

  /** binary.Read into a fixed-size field: all of it, or zero and nothing left. */
  function Next64(s: seq<byte>): (int, seq<byte>) {
    if |s| < 8 then (0, []) else (ToInt64(FromLittleEndian(s[..8])), s[8..])
  }

  function Next32(s: seq<byte>): (int, seq<byte>) {
    if |s| < 4 then (0, []) else (ToInt32(FromLittleEndian(s[..4])), s[4..])
  }

  /** string(byte(c)): the UTF-8 form of the code point of that number. */
  function ByteAsString(c: int): seq<byte> {
    var b := c % 256;
    if b < 128 then [b] else [0xC0 + b / 64, 0x80 + b % 64]
  }

  // The photo sources, after the source word.

  function DialogSource(d: Decoded, s: seq<byte>): Decoded {
    var (chatID, s1) := Next64(s);
    d.(chatID := chatID, chatAccessHash := Next64(s1).0)
  }

  function ThumbnailSource(d: Decoded, s: seq<byte>): Decoded {
    var s1 := Next32(s).1;
    if |s1| < 4 then d else d.(thumbSize := ByteAsString(Next32(s1).0))
  }

  function StickerSetSource(d: Decoded, s: seq<byte>): Decoded {
    var (setID, s1) := Next64(s);
    var (setHash, s2) := Next64(s1);
    d.(stickerSetID := setID, stickerSetHash := setHash, thumbVersion := Next32(s2).0)
  }

  function FullLegacySource(d: Decoded, s: seq<byte>): Decoded {
    var (volumeID, s1) := Next64(s);
    var (secret, s2) := Next64(s1);
    d.(volumeID := volumeID, secret := secret, localID := Next32(s2).0)
  }

  function DialogLegacySource(d: Decoded, s: seq<byte>): Decoded {
    var (chatID, s1) := Next64(s);
    var (chatHash, s2) := Next64(s1);
    var (volumeID, s3) := Next64(s2);
    d.(chatID := chatID, chatAccessHash := chatHash, volumeID := volumeID, localID := Next32(s3).0)
  }

  function StickerSetLegacySource(d: Decoded, s: seq<byte>): Decoded {
    var (setID, s1) := Next64(s);
    var (setHash, s2) := Next64(s1);
    var (volumeID, s3) := Next64(s2);
    d.(stickerSetID := setID, stickerSetHash := setHash, volumeID := volumeID, localID := Next32(s3).0)
  }

  function SourceFields(d: Decoded, s: seq<byte>): Decoded {
    if d.source == SOURCE_DIALOG_SMALL || d.source == SOURCE_DIALOG_BIG then DialogSource(d, s)
    else if d.source == SOURCE_THUMBNAIL then ThumbnailSource(d, s)
    else if d.source == SOURCE_STICKER_SET_VERSION then StickerSetSource(d, s)
    else if d.source == SOURCE_FULL_LEGACY then FullLegacySource(d, s)
    else if d.source == SOURCE_DIALOG_SMALL_LEGACY || d.source == SOURCE_DIALOG_BIG_LEGACY then DialogLegacySource(d, s)
    else if d.source == SOURCE_STICKER_SET_LEGACY then StickerSetLegacySource(d, s)
    else d
  }

  function DecodeSource(d: Decoded, s: seq<byte>): Decoded
    requires s != []
  {
    var src := ReadU32(s);
    SourceFields(d.(source := ToInt32(src.value)), src.rest)
  }

  /** After type, dc and file reference. */
  function DecodeRemote(d: Decoded, s: seq<byte>): Result<Decoded, DecodeError> {
    var id := ReadI64(s);
    if id.EndOfInput? then Err(Truncated)
    else
      var hash := ReadI64(id.rest);
      if hash.EndOfInput? then Err(Truncated)
      else
        var d := d.(id := id.value, accessHash := hash.value);
        Ok(if IsPhotoType(d.typ) && |hash.rest| > 2 then DecodeSource(d, hash.rest) else d)
  }

  function DecodeWeb(d: Decoded, s: seq<byte>): Result<Decoded, DecodeError> {
    var url := ReadPadded(s);
    if url.EndOfInput? then Err(Truncated)
    else
      var hash := ReadI64(url.rest);
      if hash.EndOfInput? then Err(Truncated)
      else Ok(d.(kind := Web, url := url.value, accessHash := hash.value))
  }

  function DecodeLocation(data: seq<byte>): Result<Decoded, DecodeError> {
    if |data| < 6 then Err(TooShort)
    else
      var word := ReadU32(data);
      var dc := ReadU32(word.rest);
      if dc.EndOfInput? then Err(Truncated)
      else
        var d := EMPTY.(typ := ClearFlag(ClearFlag(word.value, FILE_REFERENCE_FLAG), WEB_LOCATION_FLAG),
                        dcID := ToInt32(dc.value));
        if HasFlag(word.value, FILE_REFERENCE_FLAG) then
          var ref := ReadPadded(dc.rest);
          if ref.EndOfInput? then Err(Truncated)
          else DecodeRest(word.value, d.(fileReference := ref.value), ref.rest)
        else DecodeRest(word.value, d, dc.rest)
  }

  function DecodeRest(word: int, d: Decoded, s: seq<byte>): Result<Decoded, DecodeError> {
    if HasFlag(word, WEB_LOCATION_FLAG) then DecodeWeb(d, s) else DecodeRemote(d, s)
  }

  /** What a generated id means once its fields are read. */
  function Generate(t: int, path: seq<byte>, conversion: seq<byte>): Result<Decoded, DecodeError> {
    var c := ParseConversion(conversion);
    if c.NegativeZoom? then Err(ShiftPanic)
    else if t != TYPE_THUMBNAIL && t != TYPE_ENCRYPTED_THUMBNAIL then Err(UnsupportedType)
    else if c.Unknown? then Err(UnexpectedConversion)
    else Ok(EMPTY.(kind := Generated, typ := t, originalPath := path, conversion := conversion, generated := c))
  }

  function DecodeGenerated(data: seq<byte>): Result<Decoded, DecodeError> {
    var t := ReadU32(data);
    if t.EndOfInput? then Err(Truncated)
    else
      var path := ReadPadded(t.rest);
      if path.EndOfInput? then Err(Truncated)
      else
        var conversion := ReadPadded(path.rest);
        if conversion.EndOfInput? then Err(Truncated) else Generate(t.value, path.value, conversion.value)
  }

  function DecodeRaw(raw: seq<byte>): Result<Decoded, DecodeError> {
    if |raw| > 0 && raw[|raw| - 1] == GENERATED_VERSION
    then DecodeGenerated(Rle.Expand(raw[..|raw| - 1]))
    else DecodeLocation(Rle.Expand(raw))
  }

  function Decode(fileID: string): Result<Decoded, DecodeError> {
    var raw := Base64.Decode(Base64.UrlSafe, false, fileID);
    if raw.Err? then Err(BadBase64) else DecodeRaw(raw.value)
  }
}
