/** The part loop of uploadFile (internal/client/upload.go) and the chunk loop of
    downloadByLocation (internal/client/files_download.go). */
module Chunks {
  import opened Bytes

  const PART_SIZE: nat := 0x8_0000
  const BIG_FILE_THRESHOLD: nat := 0xA0_0000
  const DOWNLOAD_CHUNK_SIZE: nat := 0x10_0000
  const MAX_DOWNLOAD_FILE_SIZE: nat := 0x140_0000

  // ---------- cutting ----------

  function Min(a: nat, b: nat): nat { if a < b then a else b }

  /** The content in pieces of n bytes, the last one with what is left. */
  function Pieces(content: seq<byte>, n: nat): seq<seq<byte>>
    requires n > 0
    decreases |content|
  {
    if content == [] then [] else [content[..Min(n, |content|)]] + Pieces(content[Min(n, |content|)..], n)
  }

  function Concat(pieces: seq<seq<byte>>): seq<byte> { if pieces == [] then [] else pieces[0] + Concat(pieces[1..]) }

  function CeilDiv(a: nat, n: nat): nat
    requires n > 0
  {
    (a + n - 1) / n
  }

  lemma {:induction false} PiecesJoin(content: seq<byte>, n: nat)
    requires n > 0
    ensures Concat(Pieces(content, n)) == content
    decreases |content|
  {
    if content != [] {
      var k := Min(n, |content|);
      PiecesJoin(content[k..], n);
      assert content == content[..k] + content[k..];
    }
  }

  lemma {:induction false} PieceSizes(content: seq<byte>, n: nat, i: nat)
    requires n > 0 && i < |Pieces(content, n)|
    ensures var p := Pieces(content, n);
            (i < |p| - 1 ==> |p[i]| == n) && 0 < |p[i]| <= n
    decreases |content|
  {
    var k := Min(n, |content|);
    var rest := Pieces(content[k..], n);
    if i > 0 { PieceSizes(content[k..], n, i - 1); }
    if i == 0 && |rest| > 0 { assert content[k..] != []; }
  }

  lemma {:induction false} PartCount(content: seq<byte>)
    ensures |Pieces(content, PART_SIZE)| == CeilDiv(|content|, PART_SIZE)
    decreases |content|
  {
    if |content| > PART_SIZE {
      PartCount(content[PART_SIZE..]);
    } else if content != [] {
      assert content[|content|..] == [];
    }
  }

  // ---------- requests that may fail ----------

  /** How many of n requests in order are answered before one fails. */
  function Answered(answers: nat -> bool, n: nat): (k: nat)
    ensures k <= n && (forall i :: 0 <= i < k ==> answers(i)) && (k < n ==> !answers(k))
  {
    if n == 0 then 0
    else
      var k := Answered(answers, n - 1);
      if k == n - 1 && answers(k) then n else k
  }

  lemma AnsweredIs(answers: nat -> bool, n: nat, k: nat)
    requires k <= n && (forall i :: 0 <= i < k ==> answers(i)) && (k < n ==> !answers(k))
    ensures Answered(answers, n) == k
  {
    var a := Answered(answers, n);
    assert a >= k;
    assert k >= a;
  }

  // ---------- upload ----------

  /** One saveFilePart request, or saveBigFilePart with the announced number of parts. */
  datatype Part = Part(index: nat, announced: Option<nat>, bytes: seq<byte>)

  datatype InputFile = InputFile(big: bool, parts: nat)

  datatype UploadError = FileIsEmpty | PartRefused | SourceFailed

  function Announced(size: nat): Option<nat> {
    if size >= BIG_FILE_THRESHOLD then Some(CeilDiv(size, PART_SIZE)) else None
  }

  function Numbered(pieces: seq<seq<byte>>, announced: Option<nat>): seq<Part> {
    seq(|pieces|, i requires 0 <= i < |pieces| => Part(i, announced, pieces[i]))
  }

  /** io.ReadFull into the one buffer the loop uses again and again. */
  method ReadFull(content: seq<byte>, pos: nat, buf: array<byte>) returns (n: nat)
    requires pos <= |content|
    modifies buf
    ensures n == Min(buf.Length, |content| - pos) && buf[..n] == content[pos..pos + n]
  {
    n := 0;
    while n < buf.Length && pos + n < |content|
      invariant n <= buf.Length && pos + n <= |content| && buf[..n] == content[pos..pos + n]
    {
      buf[n] := content[pos + n];
      n := n + 1;
    }
  }

  lemma NumberedSnoc(pieces: seq<seq<byte>>, piece: seq<byte>, announced: Option<nat>)
    ensures Numbered(pieces + [piece], announced) == Numbered(pieces, announced) + [Part(|pieces|, announced, piece)]
  {
  }

  lemma NumberedNothing(announced: Option<nat>)
    ensures Numbered([], announced) == []
  {
  }

  lemma PiecesFrom(content: seq<byte>, pos: nat)
    requires pos <= |content|
    ensures var n := Min(PART_SIZE, |content| - pos);
            Pieces(content[pos..], PART_SIZE) ==
            if n == 0 then [] else [content[pos..pos + n]] + Pieces(content[pos + n..], PART_SIZE)
    ensures |content| - pos < PART_SIZE ==> Pieces(content[pos + Min(PART_SIZE, |content| - pos)..], PART_SIZE) == []
  {
    var rest, n := content[pos..], Min(PART_SIZE, |content| - pos);
    assert rest[..n] == content[pos..pos + n] && rest[n..] == content[pos + n..];
  }

  /** What an upload returns when k of its n parts were taken; broken says that the source
      ends in an error. */
  function UploadResult(size: nat, n: nat, k: nat, broken: bool): Result<InputFile, UploadError> {
    if k < n then Err(PartRefused)
    else if broken then Err(SourceFailed)
    else if n == 0 then Err(FileIsEmpty)
    else Ok(InputFile(size >= BIG_FILE_THRESHOLD, n))
  }

  /** The parts the server has taken, and the file they make. The first part that is refused
      ends the upload. */
  method UploadFile(content: seq<byte>, size: nat, takes: nat -> bool, broken: bool)
    returns (taken: seq<Part>, r: Result<InputFile, UploadError>)
    ensures var n := |Pieces(content, PART_SIZE)|;
            && taken == Numbered(Pieces(content, PART_SIZE), Announced(size))[..Answered(takes, n)]
            && r == UploadResult(size, n, Answered(takes, n), broken)
    ensures r.Ok? ==> r.value == InputFile(size >= 10 * 1024 * 1024, |taken|)
  {
    hide CeilDiv, Numbered, Pieces, Answered;
    var big := size >= BIG_FILE_THRESHOLD;
    var totalParts := CeilDiv(size, PART_SIZE);
    var buf := new byte[PART_SIZE](_ => 0);
    var part: nat, pos: nat, finished := 0, 0, false;
    ghost var pieces: seq<seq<byte>> := [];
    taken := [];
    assert content[0..] == content;
    NumberedNothing(Announced(size));
    while !finished
      invariant pos <= |content| && part == |pieces| && buf.Length == PART_SIZE && fresh(buf)
      invariant taken == Numbered(pieces, Announced(size)) && forall i :: 0 <= i < part ==> takes(i)
      invariant Pieces(content, PART_SIZE) == pieces + if finished then [] else Pieces(content[pos..], PART_SIZE)
      decreases !finished, |content| - pos
    {
      PiecesFrom(content, pos);
      var n := ReadFull(content, pos, buf);
      if n > 0 {
        if !takes(part) {
          AnsweredIs(takes, |Pieces(content, PART_SIZE)|, part);
          NumberedPrefix(pieces, Pieces(content[pos..], PART_SIZE), Announced(size));
          return taken, Err(PartRefused);
        }
        NumberedSnoc(pieces, buf[..n], Announced(size));
        Assoc(pieces, [buf[..n]], Pieces(content[pos + n..], PART_SIZE));
        taken := taken + [Part(part, if big then Some(totalParts) else None, buf[..n])];
        pieces := pieces + [buf[..n]];
        part := part + 1;
      }
      pos := pos + n;
      finished := n < PART_SIZE;
    }
    assert Pieces(content, PART_SIZE) == pieces;
    AnsweredIs(takes, part, part);
    NumberedPrefix(pieces, [], Announced(size));
    if broken { return taken, Err(SourceFailed); }
    r := if part == 0 then Err(FileIsEmpty) else Ok(InputFile(big, part));
  }

  lemma NumberedPrefix(pieces: seq<seq<byte>>, more: seq<seq<byte>>, announced: Option<nat>)
    ensures Numbered(pieces + more, announced)[..|pieces|] == Numbered(pieces, announced)
    ensures |Numbered(pieces, announced)| == |pieces|
  {
    assert Numbered(pieces + more, announced)[..|pieces|] == Numbered(pieces, announced);
  }

  /** How every upload ends: the first refused part ends it, then a failing source, then that
      there was nothing; otherwise the file has as many parts as were sent, and is big from 10
      MiB on. */
  lemma UploadEnds(content: seq<byte>, size: nat, takes: nat -> bool, broken: bool)
    ensures var n := |Pieces(content, PART_SIZE)|;
            var r := UploadResult(size, n, Answered(takes, n), broken);
            && (r == Err(PartRefused) <==> exists i :: 0 <= i < n && !takes(i))
            && (r == Err(SourceFailed) <==> broken && forall i :: 0 <= i < n ==> takes(i))
            && (r == Err(FileIsEmpty) <==> content == [] && !broken)
            && (r.Ok? <==> content != [] && !broken && forall i :: 0 <= i < n ==> takes(i))
            && (r.Ok? ==> r.value == InputFile(size >= 10 * 1024 * 1024, n))
  {
    hide Answered;
    var n := |Pieces(content, PART_SIZE)|;
    AnsweredIs(takes, n, Answered(takes, n));
    PiecesFrom(content, 0);
    assert content[0..] == content;
    assert n == 0 <==> content == [];
  }

  /** Uploading any content with its true size: parts numbered from 0, their bytes together
      the content, all but the last of exactly 512 KiB, and as many as a big file announces,
      which a file from 10 MiB on does. */
  lemma UploadParts(content: seq<byte>)
    ensures var parts := Numbered(Pieces(content, PART_SIZE), Announced(|content|));
            && |parts| == (|content| + 524_287) / 524_288
            && Concat(Pieces(content, PART_SIZE)) == content
            && (forall i :: 0 <= i < |parts| ==>
                  && parts[i].index == i && parts[i].bytes == Pieces(content, PART_SIZE)[i]
                  && 0 < |parts[i].bytes| <= 512 * 1024
                  && (i < |parts| - 1 ==> |parts[i].bytes| == 512 * 1024)
                  && parts[i].announced == if |content| >= 10 * 1024 * 1024 then Some(|parts|) else None)
  {
    var p := Pieces(content, PART_SIZE);
    PartCount(content);
    PiecesJoin(content, PART_SIZE);
    forall i | 0 <= i < |p| ensures 0 < |p[i]| <= PART_SIZE && (i < |p| - 1 ==> |p[i]| == PART_SIZE) {
      PieceSizes(content, PART_SIZE, i);
    }
  }

  // ---------- download ----------

  datatype DownloadError = FileTooBig | RequestFailed

  /** upload.getFile on a server that holds the content. */
  function Serve(content: seq<byte>, offset: nat): (chunk: seq<byte>)
    requires offset <= |content|
  {
    content[offset..offset + Min(DOWNLOAD_CHUNK_SIZE, |content| - offset)]
  }

  lemma {:induction false} ConcatSnoc(chunks: seq<seq<byte>>, c: seq<byte>)
    ensures Concat(chunks + [c]) == Concat(chunks) + c
  {
    if chunks == [] {
      assert Concat([c]) == c + Concat([]);
    } else {
      ConcatSnoc(chunks[1..], c);
      assert (chunks + [c])[1..] == chunks[1..] + [c];
    }
  }

  predicate TooBig(size: nat, localMode: bool) { !localMode && size > MAX_DOWNLOAD_FILE_SIZE }

  /** How many requests a download makes if all are answered: up to the first short or empty
      chunk, or up to the one that goes over the cap. */
  function Requests(size: nat, localMode: bool): nat {
    (if TooBig(size, localMode) then MAX_DOWNLOAD_FILE_SIZE else size) / DOWNLOAD_CHUNK_SIZE + 1
  }

  /** The download returns exactly the content, unless a request it needs fails, or all are
      answered, the server is not local and the content is over 20 MiB. */
  method DownloadByLocation(content: seq<byte>, localMode: bool, answers: nat -> bool)
    returns (r: Result<(seq<seq<byte>>, nat), DownloadError>)
    ensures r == Err(RequestFailed) <==>
        Answered(answers, Requests(|content|, localMode)) < Requests(|content|, localMode)
    ensures r == Err(FileTooBig) <==> r != Err(RequestFailed) && !localMode && |content| > 20 * 1024 * 1024
    ensures r.Ok? ==> Concat(r.value.0) == content && r.value.1 == |content|
    ensures r.Ok? ==> forall i :: 0 <= i < |r.value.0| ==>
              0 < |r.value.0[i]| <= 1024 * 1024 && (i < |r.value.0| - 1 ==> |r.value.0[i]| == 1024 * 1024)
  {
    hide Answered, Concat;
    var offset: nat, totalBytes: nat, made: nat := 0, 0, 0;
    var chunks: seq<seq<byte>> := [];
    NoChunks();
    while true
      invariant offset == totalBytes == made * DOWNLOAD_CHUNK_SIZE <= |content| && Concat(chunks) == content[..offset]
      invariant localMode || totalBytes <= MAX_DOWNLOAD_FILE_SIZE
      invariant forall i :: 0 <= i < |chunks| ==> |chunks[i]| == DOWNLOAD_CHUNK_SIZE
      invariant forall i :: 0 <= i < made ==> answers(i)
      decreases |content| - offset
    {
      assert made < Requests(|content|, localMode);
      if !answers(made) {
        AnsweredIs(answers, Requests(|content|, localMode), made);
        return Err(RequestFailed);
      }
      made := made + 1;
      var chunk := Serve(content, offset);
      if |chunk| == 0 { break; }
      ConcatSnoc(chunks, chunk);
      assert content[..offset] + chunk == content[..offset + |chunk|];
      chunks := chunks + [chunk];
      totalBytes := totalBytes + |chunk|;
      offset := offset + |chunk|;
      if !localMode && totalBytes > MAX_DOWNLOAD_FILE_SIZE {
        AnsweredIs(answers, made, made);
        assert made == Requests(|content|, localMode);
        return Err(FileTooBig);
      }
      if |chunk| < DOWNLOAD_CHUNK_SIZE { break; }
    }
    AnsweredIs(answers, made, made);
    assert made == Requests(|content|, localMode);
    assert offset == |content| && content[..offset] == content;
    r := Ok((chunks, totalBytes));
  }

  /** The requests a download makes if all are answered: one for each full MiB, and one more;
      with too much on a server that is not local, the one that goes over 20 MiB is the last. */
  lemma RequestCount(size: nat, localMode: bool)
    ensures Requests(size, localMode) == if !localMode && size > 20 * 1024 * 1024 then 21 else size / 1_048_576 + 1
  {
  }

  lemma NoChunks()
    ensures Concat([]) == []
  {
  }
}
