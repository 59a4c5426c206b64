/** file_unique_id: the id paired with a file at message time, the id getFile recomputes
    from a decoded file_id (fileUniqueIDFromDecoded in internal/client/files_download.go),
    and when two files share one. */
module UniqueId {
  import opened Bytes
  import opened Wire
  import opened FileId
  import opened FileIdProofs
  import Base64
  import Rle

  /** What identifies a file. */
  datatype Key =
    | DocumentKey(fileClass: int, id: int)
    | PhotoKey(photoID: int, compare: byte)
    | StickerSetKey(setID: int, thumbVersion: int)
    | LegacyKey(volumeID: int, localID: int)
    | GeneratedKey(typ: int, path: seq<byte>, conversion: seq<byte>)

  /** A file with everything its encoder is given. */
  datatype File =
    | Document(dcID: int, id: int, accessHash: int, ref: seq<byte>, typ: int)
    | Thumbnail(typ: int, dcID: int, id: int, accessHash: int, ref: seq<byte>, thumbnailType: byte)
    | DialogPhoto(dcID: int, id: int, chatID: int, chatAccessHash: int, isBig: bool)
    | StickerSetThumb(dcID: int, setID: int, setAccessHash: int, thumbVersion: int)
    | FullLegacy(dcID: int, id: int, accessHash: int, ref: seq<byte>, volumeID: int,
                 localID: int, secret: int, typ: int)
    | DialogLegacy(dcID: int, id: int, chatID: int, chatAccessHash: int, isBig: bool, volumeID: int, localID: int)
    | StickerSetLegacy(dcID: int, setID: int, setAccessHash: int, volumeID: int, localID: int)
    | WebFile(typ: int, url: seq<byte>, accessHash: int)
    | GeneratedFile(typ: int, path: seq<byte>, conversion: seq<byte>)
  {
    /** The widths of the source's fields, and strings short enough for their headers. */
    predicate Valid() {
      match this
      case Document(dc, id, hash, ref, t) => IsInt32(dc) && IsInt64(id) && IsInt64(hash)
        && |ref| < TWO_24 && PlainType(t)
      case Thumbnail(t, dc, id, hash, ref, _) =>
        (t == TYPE_PHOTO || t == TYPE_THUMBNAIL) && IsInt32(dc) && IsInt64(id) && IsInt64(hash) && |ref| < TWO_24
      case DialogPhoto(dc, id, chat, hash, _) => IsInt32(dc) && IsInt64(id) && IsInt64(chat) && IsInt64(hash)
      case StickerSetThumb(dc, set_, hash, v) => IsInt32(dc) && IsInt64(set_) && IsInt64(hash) && IsInt32(v)
      case FullLegacy(dc, id, hash, ref, vol, loc, secret, t) =>
        IsPhotoType(t) && IsInt32(dc) && IsInt64(id) && IsInt64(hash) && |ref| < TWO_24
        && IsInt64(vol) && IsInt32(loc) && IsInt64(secret)
      case DialogLegacy(dc, id, chat, hash, _, vol, loc) =>
        IsInt32(dc) && IsInt64(id) && IsInt64(chat) && IsInt64(hash) && IsInt64(vol) && IsInt32(loc)
      case StickerSetLegacy(dc, set_, hash, vol, loc) =>
        IsInt32(dc) && IsInt64(set_) && IsInt64(hash) && IsInt64(vol) && IsInt32(loc)
      case WebFile(t, url, hash) => PlainType(t) && |url| < TWO_24 && IsInt64(hash)
      case GeneratedFile(t, path, conversion) => 0 <= t < TWO_32 && |path| < TWO_24 && |conversion| < TWO_24
    }
  }

  function FileIDOf(f: File): string {
    match f
    case Document(dc, id, hash, ref, t) => EncodeRaw(DocumentLayout(dc, id, hash, ref, t))
    case Thumbnail(t, dc, id, hash, ref, b) => EncodeRaw(ThumbnailLayout(t, dc, id, hash, ref, b))
    case DialogPhoto(dc, id, chat, hash, big) => EncodeRaw(DialogPhotoLayout(dc, id, chat, hash, big))
    case StickerSetThumb(dc, set_, hash, v) => EncodeRaw(StickerSetThumbLayout(dc, set_, hash, v))
    case FullLegacy(dc, id, hash, ref, vol, loc, secret, t) =>
      EncodeRaw(FullLegacyLayout(dc, id, hash, ref, vol, loc, secret, t))
    case DialogLegacy(dc, id, chat, hash, big, vol, loc) =>
      EncodeRaw(DialogLegacyLayout(dc, id, chat, hash, big, vol, loc))
    case StickerSetLegacy(dc, set_, hash, vol, loc) => EncodeRaw(StickerSetLegacyLayout(dc, set_, hash, vol, loc))
    case WebFile(t, url, hash) => EncodeRaw(WebLayout(t, url, hash))
    case GeneratedFile(t, path, conversion) => EncodeGenerated(t, path, conversion)
  }

  /** fileTypeClassUnique */
  function TypeClass(t: int): int {
    if t in {0, 1, 2, 11, 12, 20, 22} then 1
    else if t in {14, 15} then 3
    else if t == 6 then 4
    else if t == 7 then 5
    else 2
  }

  /** thumbnailUniqueByte */
  function CompareByte(t: byte): byte {
    if t == 'a' as int then 0 else if t == 'c' as int then 1 else (t + 5) % 256
  }

  function UniqueLayout(k: Key): seq<byte> {
    match k
    case DocumentKey(class_, id) => U32(class_) + I64(id)
    case PhotoKey(id, compare) => U32(1) + (I64(id) + [compare])
    case StickerSetKey(set_, v) => U32(1) + ([2] + (I64(set_) + U32(v)))
    case LegacyKey(vol, loc) => U32(1) + ([3] + (I64(vol) + U32(loc)))
    case GeneratedKey(t, path, conversion) =>
      [0xFF] + (U32(t) + (Padded(5, path) + Padded(5 + |Padded(5, path)|, conversion)))
  }

  function UniqueString(k: Key): string { EncodeRaw(UniqueLayout(k)) }

  /** The key the converters give a file; web files have none. */
  function KeyOf(f: File): Option<Key> {
    match f
    case Document(_, id, _, _, t) => Some(DocumentKey(TypeClass(t), id))
    case Thumbnail(_, _, id, _, _, b) => Some(PhotoKey(id, CompareByte(b)))
    case DialogPhoto(_, id, _, _, big) => Some(PhotoKey(id, if big then 1 else 0))
    case StickerSetThumb(_, set_, _, v) => Some(StickerSetKey(set_, v))
    case FullLegacy(_, _, _, _, vol, loc, _, _) => Some(LegacyKey(vol, loc))
    case DialogLegacy(_, _, _, _, _, vol, loc) => Some(LegacyKey(vol, loc))
    case StickerSetLegacy(_, _, _, vol, loc) => Some(LegacyKey(vol, loc))
    case WebFile(_, _, _) => None
    case GeneratedFile(t, path, conversion) => Some(GeneratedKey(t, path, conversion))
  }

  function UniqueIDOf(f: File): string { if KeyOf(f).Some? then UniqueString(KeyOf(f).value) else "" }

  /** fileUniqueIDFromDecoded */
  function FromDecoded(d: Decoded): string {
    if d.kind.Web? then ""
    else if d.kind.Generated? then UniqueString(GeneratedKey(d.typ, d.originalPath, d.conversion))
    else if d.source == SOURCE_DIALOG_SMALL then UniqueString(PhotoKey(d.id, 0))
    else if d.source == SOURCE_DIALOG_BIG then UniqueString(PhotoKey(d.id, 1))
    else if d.source == SOURCE_STICKER_SET_VERSION then UniqueString(StickerSetKey(d.stickerSetID, d.thumbVersion))
    else if d.source == SOURCE_FULL_LEGACY then UniqueString(LegacyKey(d.volumeID, d.localID))
    else if d.source == SOURCE_DIALOG_SMALL_LEGACY || d.source == SOURCE_DIALOG_BIG_LEGACY
    then UniqueString(LegacyKey(d.volumeID, d.localID))
    else if d.source == SOURCE_STICKER_SET_LEGACY then UniqueString(LegacyKey(d.volumeID, d.localID))
    else if d.source == SOURCE_THUMBNAIL then
      var b := if |d.thumbSize| > 0 then d.thumbSize[0] else 'x' as int;
      UniqueString(PhotoKey(d.id, CompareByte(b)))
    else UniqueString(DocumentKey(TypeClass(d.typ), d.id))
  }

  // ---------- injectivity ----------

  predicate ValidKey(k: Key) {
    match k
    case DocumentKey(c, id) => 1 <= c <= 5 && IsInt64(id)
    case PhotoKey(id, _) => IsInt64(id)
    case StickerSetKey(set_, v) => IsInt64(set_) && IsInt32(v)
    case LegacyKey(vol, loc) => IsInt64(vol) && IsInt32(loc)
    case GeneratedKey(t, path, conversion) => 0 <= t < TWO_32 && |path| < TWO_24 && |conversion| < TWO_24
  }

  lemma SameWord(v: int, w: int, s: seq<byte>, t: seq<byte>)
    requires U32(v) + s == U32(w) + t
    ensures v % TWO_32 == w % TWO_32 && s == t
  {
    ReadU32Back(v, s);
    ReadU32Back(w, t);
  }

  lemma SameInt32(v: int, w: int)
    requires IsInt32(v) && IsInt32(w) && U32(v) == U32(w)
    ensures v == w
  {
    SameWord(v, w, [], []);
  }

  lemma SameLong(v: int, w: int, s: seq<byte>, t: seq<byte>)
    requires IsInt64(v) && IsInt64(w) && I64(v) + s == I64(w) + t
    ensures v == w && s == t
  {
    ReadI64Back(v, s);
    ReadI64Back(w, t);
  }

  lemma SameTagged(tag: byte, tag': byte, v: int, w: int, x: int, y: int)
    requires IsInt64(v) && IsInt64(w) && IsInt32(x) && IsInt32(y)
    requires U32(1) + ([tag] + (I64(v) + U32(x))) == U32(1) + ([tag'] + (I64(w) + U32(y)))
    ensures tag == tag' && v == w && x == y
  {
    var s, t := I64(v) + U32(x), I64(w) + U32(y);
    SameWord(1, 1, [tag] + s, [tag'] + t);
    assert ([tag] + s)[0] == tag && ([tag'] + t)[0] == tag';
    assert ([tag] + s)[1..] == s && ([tag'] + t)[1..] == t;
    SameLong(v, w, U32(x), U32(y));
    SameInt32(x, y);
  }

  lemma SamePhoto(v: int, w: int, b: byte, c: byte)
    requires IsInt64(v) && IsInt64(w) && U32(1) + (I64(v) + [b]) == U32(1) + (I64(w) + [c])
    ensures v == w && b == c
  {
    SameWord(1, 1, I64(v) + [b], I64(w) + [c]);
    SameLong(v, w, [b], [c]);
    assert [b][0] == [c][0];
  }

  lemma SameDocument(a: int, b: int, v: int, w: int)
    requires 1 <= a <= 5 && 1 <= b <= 5 && IsInt64(v) && IsInt64(w) && U32(a) + I64(v) == U32(b) + I64(w)
    ensures a == b && v == w
  {
    SameWord(a, b, I64(v), I64(w));
    assert I64(v) + [] == I64(v) && I64(w) + [] == I64(w);
    SameLong(v, w, [], []);
  }

  lemma StringsBack(path: seq<byte>, conversion: seq<byte>)
    requires |path| < TWO_24 && |conversion| < TWO_24
    ensures var c := Padded(5 + |Padded(5, path)|, conversion);
            ReadPaddedAt(5, Padded(5, path) + c) == Got(path, c) && ReadPaddedAt(0, c) == Got(conversion, [])
  {
    var n := 5 + |Padded(5, path)|;
    assert n % 4 == 0;
    var c := Padded(n, conversion);
    assert c != [];
    ReadPaddedBack(5, 5, path, c);
    ReadPaddedBack(n, 0, conversion, []);
    assert c + [] == c;
  }

  lemma SameGenerated(t: int, u: int, p: seq<byte>, q: seq<byte>, c: seq<byte>, d: seq<byte>)
    requires 0 <= t < TWO_32 && 0 <= u < TWO_32 && |p| < TWO_24 && |q| < TWO_24 && |c| < TWO_24 && |d| < TWO_24
    requires UniqueLayout(GeneratedKey(t, p, c)) == UniqueLayout(GeneratedKey(u, q, d))
    ensures t == u && p == q && c == d
  {
    hide Padded, ReadPaddedAt, U32;
    var s := Padded(5, p) + Padded(5 + |Padded(5, p)|, c);
    var s' := Padded(5, q) + Padded(5 + |Padded(5, q)|, d);
    assert ([0xFF] + (U32(t) + s))[1..] == U32(t) + s;
    assert ([0xFF] + (U32(u) + s'))[1..] == U32(u) + s';
    SameWord(t, u, s, s');
    StringsBack(p, c);
    StringsBack(q, d);
  }

  /** Keys of different kinds differ in length, in the tag after the class, or in the
      first byte, which is 0xFF for generated files and a class from 1 to 5 otherwise. */
  lemma KindsApart(a: Key, b: Key)
    requires ValidKey(a) && ValidKey(b) && UniqueLayout(a) == UniqueLayout(b)
    ensures a.GeneratedKey? <==> b.GeneratedKey?
    ensures !a.GeneratedKey? && !b.GeneratedKey? ==>
      (a.DocumentKey? <==> b.DocumentKey?) && (a.PhotoKey? <==> b.PhotoKey?)
  {
    FirstByte(a);
    FirstByte(b);
  }

  lemma FirstByte(k: Key)
    requires ValidKey(k)
    ensures UniqueLayout(k) != []
    ensures if k.GeneratedKey? then UniqueLayout(k)[0] == 0xFF else 1 <= UniqueLayout(k)[0] <= 5
    ensures k.DocumentKey? ==> |UniqueLayout(k)| == 12
    ensures k.PhotoKey? ==> |UniqueLayout(k)| == 13
    ensures k.StickerSetKey? || k.LegacyKey? ==> |UniqueLayout(k)| == 17
  {
    var c := if k.DocumentKey? then k.fileClass else 1;
    assert U32(c)[0] == c % TWO_32 % 256;
  }

  lemma SameBytes(a: Key, b: Key)
    requires ValidKey(a) && ValidKey(b) && UniqueLayout(a) == UniqueLayout(b)
    ensures a == b
  {
    KindsApart(a, b);
    if a.DocumentKey? {
      SameDocument(a.fileClass, b.fileClass, a.id, b.id);
    } else if a.PhotoKey? {
      SamePhoto(a.photoID, b.photoID, a.compare, b.compare);
    } else if a.GeneratedKey? {
      SameGenerated(a.typ, b.typ, a.path, b.path, a.conversion, b.conversion);
    } else {
      var (x, y, tag) := if a.LegacyKey? then (a.volumeID, a.localID, 3) else (a.setID, a.thumbVersion, 2);
      var (x', y', tag') := if b.LegacyKey? then (b.volumeID, b.localID, 3) else (b.setID, b.thumbVersion, 2);
      SameTagged(tag, tag', x, x', y, y');
    }
  }

  lemma SameString(a: Key, b: Key)
    requires ValidKey(a) && ValidKey(b)
    ensures UniqueString(a) == UniqueString(b) <==> a == b
    ensures UniqueString(a) != ""
  {
    FirstByte(a);
    Base64.EncodeInjective(Base64.UrlSafe, Rle.Compress(UniqueLayout(a)), Rle.Compress(UniqueLayout(b)));
    Rle.CompressInjective(UniqueLayout(a), UniqueLayout(b));
    if UniqueLayout(a) == UniqueLayout(b) { SameBytes(a, b); }
  }

  lemma KeyValid(f: File)
    requires f.Valid() && !f.WebFile?
    ensures ValidKey(KeyOf(f).value)
  {
  }

  /** Two files share a unique id exactly when they share a key. */
  lemma UniqueIdsAgree(f: File, g: File)
    requires f.Valid() && g.Valid()
    ensures UniqueIDOf(f) == UniqueIDOf(g) <==> KeyOf(f) == KeyOf(g)
  {
    hide UniqueString;
    if !f.WebFile? { KeyValid(f); SameString(KeyOf(f).value, KeyOf(f).value); }
    if !g.WebFile? { KeyValid(g); SameString(KeyOf(g).value, KeyOf(g).value); }
    if !f.WebFile? && !g.WebFile? { SameString(KeyOf(f).value, KeyOf(g).value); }
  }

  /** The designed collisions between a photo size and a chat photo: the 'a' size is the
      small one and the 'c' size the big one. (251 and 252 reach the same bytes by
      wrap-around; the size letters the service sends are ASCII.) */
  lemma PhotoSizeIsChatPhoto(f: File, g: File)
    requires f.Valid() && g.Valid() && f.Thumbnail? && g.DialogPhoto?
    ensures UniqueIDOf(f) == UniqueIDOf(g) <==>
            f.id == g.id && f.thumbnailType in (if g.isBig then {'c' as int, 252} else {'a' as int, 251})
  {
    hide UniqueIDOf;
    UniqueIdsAgree(f, g);
    CompareByteIs(f.thumbnailType);
  }

  lemma CompareByteIs(t: byte)
    ensures CompareByte(t) == 0 <==> t in {'a' as int, 251}
    ensures CompareByte(t) == 1 <==> t in {'c' as int, 252}
  {
  }

  predicate IsLegacy(f: File) { f.FullLegacy? || f.DialogLegacy? || f.StickerSetLegacy? }

  /** Apart from photo sizes and chat photos, and the legacy sources among themselves,
      files of different kinds never share a unique id. */
  lemma OtherKindsNeverCollide(f: File, g: File)
    requires f.Valid() && g.Valid() && UniqueIDOf(f) == UniqueIDOf(g)
    ensures || (f.Document? && g.Document?) || (f.StickerSetThumb? && g.StickerSetThumb?)
            || (f.WebFile? && g.WebFile?) || (f.GeneratedFile? && g.GeneratedFile?)
            || ((f.Thumbnail? || f.DialogPhoto?) && (g.Thumbnail? || g.DialogPhoto?))
            || (IsLegacy(f) && IsLegacy(g) && f.volumeID == g.volumeID && f.localID == g.localID)
  {
    hide UniqueIDOf;
    UniqueIdsAgree(f, g);
  }

  // ---------- getFile agrees with the message ----------

  lemma FirstOfByte(b: byte)
    ensures CompareByte(ByteAsString(b)[0]) == CompareByte(b) <==> b < 128 || b == 195
  {
  }

  lemma ThumbnailAgrees(f: File)
    requires f.Valid() && f.Thumbnail?
    ensures Decode(FileIDOf(f)).Ok?
    ensures FromDecoded(Decode(FileIDOf(f)).value) == UniqueIDOf(f) <==> f.thumbnailType < 128 || f.thumbnailType == 195
  {
    hide Decode, EncodeRaw, UniqueString;
    ThumbnailRoundTrip(f.typ, f.dcID, f.id, f.accessHash, f.ref, f.thumbnailType);
    FirstOfByte(f.thumbnailType);
    var first := ByteAsString(f.thumbnailType)[0];
    SameString(PhotoKey(f.id, CompareByte(first)), PhotoKey(f.id, CompareByte(f.thumbnailType)));
  }

  lemma RemoteAgrees(f: File)
    requires f.Valid() && (f.Document? || f.DialogPhoto? || f.StickerSetThumb? || f.WebFile?)
    ensures Decode(FileIDOf(f)).Ok? && FromDecoded(Decode(FileIDOf(f)).value) == UniqueIDOf(f)
  {
    hide Decode, EncodeRaw, UniqueString;
    match f
    case Document(dc, id, hash, ref, t) => DocumentRoundTrip(dc, id, hash, ref, t);
    case DialogPhoto(dc, id, chat, hash, big) => DialogPhotoRoundTrip(dc, id, chat, hash, big);
    case StickerSetThumb(dc, set_, hash, v) => StickerSetThumbRoundTrip(dc, set_, hash, v);
    case WebFile(t, url, hash) => WebRoundTrip(t, url, hash);
  }

  lemma LegacyAgrees(f: File)
    requires f.Valid() && IsLegacy(f)
    ensures Decode(FileIDOf(f)).Ok? && FromDecoded(Decode(FileIDOf(f)).value) == UniqueIDOf(f)
  {
    hide Decode, EncodeRaw, UniqueString;
    match f
    case FullLegacy(dc, id, hash, ref, vol, loc, secret, t) =>
      FullLegacyRoundTrip(dc, id, hash, ref, vol, loc, secret, t);
    case DialogLegacy(dc, id, chat, hash, big, vol, loc) => DialogLegacyRoundTrip(dc, id, chat, hash, big, vol, loc);
    case StickerSetLegacy(dc, set_, hash, vol, loc) => StickerSetLegacyRoundTrip(dc, set_, hash, vol, loc);
  }

  /** getFile recomputes the unique id that came with the message, for every file id it
      accepts, unless a thumbnail type is outside ASCII (195 happens to survive). */
  lemma GetFileAgrees(f: File)
    requires f.Valid()
    ensures Decode(FileIDOf(f)).Ok? ==>
              (FromDecoded(Decode(FileIDOf(f)).value) == UniqueIDOf(f)
               <==> (f.Thumbnail? ==> f.thumbnailType < 128 || f.thumbnailType == 195))
    ensures !f.GeneratedFile? ==> Decode(FileIDOf(f)).Ok?
  {
    hide Decode, EncodeRaw, FileId.EncodeGenerated, UniqueString;
    if f.Thumbnail? {
      ThumbnailAgrees(f);
    } else if IsLegacy(f) {
      LegacyAgrees(f);
    } else if f.GeneratedFile? {
      GeneratedRoundTrip(f.typ, f.path, f.conversion);
    } else {
      RemoteAgrees(f);
    }
  }
}
