/** The length-framed blob stream of `git cat-file --batch -Z`: a header terminated by NUL, then
    exactly as many content bytes as the header announces, then a NUL. */
module GitBlobBatch {
  import opened Seqs

  import Decimal

  type byte = x: int | 0 <= x < 256
  type bytes = seq<byte>

  const NUL: byte := 0
  const MAX_GIT_BLOB_BYTES := 512 * 1024

  // ---------------------------------------------------------------------------------------------
  // Decimal numbers in ASCII
  // ---------------------------------------------------------------------------------------------

  predicate IsDigit(b: byte) {
    48 <= b <= 57
  }

  predicate AllDigits(s: bytes) {
    forall i :: 0 <= i < |s| ==> IsDigit(s[i])
  }

  function Ascii(s: string): (r: bytes)
    requires forall i :: 0 <= i < |s| ==> Decimal.IsDigit(s[i])
    ensures |r| == |s| && forall i :: 0 <= i < |r| ==> r[i] == s[i] as int
  {
    if s == "" then []
    else
      assert Decimal.IsDigit(s[0]);
      var first: byte := s[0] as int;
      [first] + Ascii(s[1..])
  }

  function Text(s: bytes): (r: string)
    ensures |r| == |s| && forall i :: 0 <= i < |r| ==> r[i] == s[i] as char
  {
    if s == [] then "" else [s[0] as char] + Text(s[1..])
  }

  function Digits(n: nat): (r: bytes)
    ensures |r| > 0 && AllDigits(r)
  {
    Ascii(Decimal.Digits(n))
  }

  function Number(s: bytes): nat
    requires AllDigits(s)
  {
    Decimal.Number(Text(s))
  }

  lemma {:induction false} NumberOfDigits(n: nat)
    ensures Number(Digits(n)) == n
  {
    assert Text(Digits(n)) == Decimal.Digits(n);
    Decimal.NumberOfDigits(n);
  }

  // ---------------------------------------------------------------------------------------------
  // Headers
  // ---------------------------------------------------------------------------------------------

  const BLOB: bytes := [32, 98, 108, 111, 98, 32]
  const MISSING: bytes := [32, 109, 105, 115, 115, 105, 110, 103]

  predicate IsHex(b: byte) {
    48 <= b <= 57 || 97 <= b <= 102
  }

  function HexRun(s: bytes): (n: nat)
    ensures n <= |s| && (forall i :: 0 <= i < n ==> IsHex(s[i])) && (n < |s| ==> !IsHex(s[n]))
  {
    if s == [] || !IsHex(s[0]) then 0 else 1 + HexRun(s[1..])
  }

  /** The size announced by a header of the form: object name of 40 to 64 hex digits, " blob ", decimal size. */
  function BlobSize(header: bytes): Option<nat> {
    var n := HexRun(header);
    if 40 <= n <= 64 && |header| > n + |BLOB| && header[n..n + |BLOB|] == BLOB && AllDigits(header[n + |BLOB|..])
    then Some(Number(header[n + |BLOB|..]))
    else None
  }

  ghost predicate IsObjectName(oid: bytes) {
    40 <= |oid| <= 64 && forall i :: 0 <= i < |oid| ==> IsHex(oid[i])
  }

  function BlobHeader(oid: bytes, size: nat): bytes {
    oid + BLOB + Digits(size)
  }

  lemma {:induction false} HexRunIs(s: bytes, n: nat)
    requires n < |s| && !IsHex(s[n]) && forall i :: 0 <= i < n ==> IsHex(s[i])
    ensures HexRun(s) == n
  {
  }

  lemma {:induction false} BlobHeaderParses(oid: bytes, size: nat)
    requires IsObjectName(oid)
    ensures BlobSize(BlobHeader(oid, size)) == Some(size)
    ensures NUL !in BlobHeader(oid, size)
  {
    var header := BlobHeader(oid, size);
    assert header == oid + (BLOB + Digits(size));
    assert header[|oid|] == BLOB[0];
    HexRunIs(header, |oid|);
    assert header[|oid|..|oid| + |BLOB|] == BLOB;
    assert header[|oid| + |BLOB|..] == Digits(size);
    NumberOfDigits(size);
  }

  /** `header` is 40 to 64 lower-case hex digits, a space, the word "blob", a space, and at least one digit. */
  ghost predicate Announces(header: bytes, oid: bytes, digits: bytes) {
    && header == oid + [32, 98, 108, 111, 98, 32] + digits
    && 40 <= |oid| <= 64 && (forall i :: 0 <= i < |oid| ==> 48 <= oid[i] <= 57 || 97 <= oid[i] <= 102)
    && digits != [] && forall i :: 0 <= i < |digits| ==> 48 <= digits[i] <= 57
  }

  /** A header gives a size exactly when it is of that form, and then the number its digits spell. */
  lemma {:induction false} BlobSizeIff(header: bytes, size: nat)
    ensures BlobSize(header) == Some(size)
            <==> exists oid, digits :: Announces(header, oid, digits) && AllDigits(digits) && Number(digits) == size
  {
    var n := HexRun(header);
    if BlobSize(header).Some? {
      var oid, digits := header[..n], header[n + 6..];
      assert header[n..n + 6] == BLOB && header == oid + header[n..n + 6] + digits;
      assert Announces(header, oid, digits);
    }
    forall oid, digits | Announces(header, oid, digits) ensures AllDigits(digits) && BlobSize(header) == Some(Number(digits)) {
      assert header[|oid|] == 32 && forall i :: 0 <= i < |oid| ==> header[i] == oid[i];
      HexRunIs(header, |oid|);
      assert header[|oid|..|oid| + 6] == BLOB && header[|oid| + 6..] == digits;
    }
  }

  /** The reply for an unknown object is never taken for a blob header, whatever the object name. */
  lemma {:induction false} MissingIsNoBlob(name: bytes)
    ensures BlobSize(name + MISSING).None?
  {
    var header := name + MISSING;
    var n := HexRun(header);
    if |header| > n + |BLOB| {
      assert header[n + |BLOB|..][|header| - n - |BLOB| - 1] == header[|header| - 1] == MISSING[7];
    }
  }

  function IndexOfNul(raw: bytes, offset: nat): (r: Option<nat>)
    ensures r.Some? ==> offset <= r.value < |raw| && raw[r.value] == NUL
    decreases |raw| - offset
  {
    if offset >= |raw| then None
    else if raw[offset] == NUL then Some(offset)
    else IndexOfNul(raw, offset + 1)
  }

  // ---------------------------------------------------------------------------------------------
  // Decoding
  // ---------------------------------------------------------------------------------------------

  /** One step of the decoder: stop, skip a header, or take a blob. */
  datatype Step = Stop | Skip(offset: nat) | Take(content: bytes, offset: nat)

  /** The step once the header is read. */
  function AfterHeader(raw: bytes, end: nat, size: Option<nat>): Step
    requires end < |raw|
  {
    if size.None? then Skip(end + 1)
    else
      var contentEnd := end + 1 + size.value;
      if contentEnd >= |raw| || raw[contentEnd] != NUL then Stop else Take(raw[end + 1..contentEnd], contentEnd + 1)
  }

  function DecodeStep(raw: bytes, offset: nat): Step {
    var end := IndexOfNul(raw, offset);
    if end.None? then Stop else AfterHeader(raw, end.value, BlobSize(raw[offset..end.value]))
  }

  /** A header starts at `offset` and is ended by the first NUL after it, at `end`. */
  ghost predicate HeaderEnds(raw: bytes, offset: nat, end: nat) {
    offset <= end < |raw| && raw[end] == NUL && forall i :: offset <= i < end ==> raw[i] != NUL
  }

  ghost predicate HasSize(header: bytes, size: nat) {
    exists oid, digits :: Announces(header, oid, digits) && AllDigits(digits) && Number(digits) == size
  }

  lemma {:induction false} NulIs(raw: bytes, offset: nat)
    ensures IndexOfNul(raw, offset).Some? ==> HeaderEnds(raw, offset, IndexOfNul(raw, offset).value)
    ensures IndexOfNul(raw, offset).None? ==> forall i :: offset <= i < |raw| ==> raw[i] != NUL
    decreases |raw| - offset
  {
    if offset < |raw| && raw[offset] != NUL {
      NulIs(raw, offset + 1);
    }
  }

  ghost predicate HasNoSize(header: bytes) {
    forall n: nat :: !HasSize(header, n)
  }

  /** The header announces the content, which follows it up to a NUL before `next`. */
  ghost predicate IsTaken(raw: bytes, offset: nat, content: bytes, next: nat) {
    exists end: nat ::
      && HeaderEnds(raw, offset, end) && HasSize(raw[offset..end], |content|)
      && next == end + |content| + 2 && next <= |raw|
      && raw[end + 1..next - 1] == content && raw[next - 1] == NUL
  }

  ghost predicate IsSkipped(raw: bytes, offset: nat, next: nat) {
    next > 0 && HeaderEnds(raw, offset, next - 1) && HasNoSize(raw[offset..next - 1])
  }

  /** No whole header is left, or no whole content with a NUL behind it. */
  ghost predicate IsCut(raw: bytes, offset: nat) {
    || (forall i :: offset <= i < |raw| ==> raw[i] != NUL)
    || exists end: nat, size: nat ::
         HeaderEnds(raw, offset, end) && HasSize(raw[offset..end], size) && (end + 1 + size >= |raw| || raw[end + 1 + size] != NUL)
  }

  /** The step is one that takes, skips or stops for the right reason. */
  ghost predicate IsStep(raw: bytes, offset: nat, step: Step) {
    match step
    case Take(content, next) => IsTaken(raw, offset, content, next)
    case Skip(next) => IsSkipped(raw, offset, next)
    case Stop => IsCut(raw, offset)
  }

  /** What a step of the decoder does at any offset of any stream. */
  lemma {:induction false} StepIs(raw: bytes, offset: nat)
    ensures IsStep(raw, offset, DecodeStep(raw, offset))
  {
    NulIs(raw, offset);
    if IndexOfNul(raw, offset).Some? {
      HeaderIs(raw, offset, IndexOfNul(raw, offset).value);
    }
  }

  lemma {:induction false} HeaderIs(raw: bytes, offset: nat, end: nat)
    requires HeaderEnds(raw, offset, end)
    ensures IsStep(raw, offset, AfterHeader(raw, end, BlobSize(raw[offset..end])))
  {
    SizeIs(raw[offset..end]);
    match BlobSize(raw[offset..end]) {
      case None => UnsizedIs(raw, offset, end);
      case Some(size) => SizedIs(raw, offset, end, size);
    }
  }

  lemma {:induction false} UnsizedIs(raw: bytes, offset: nat, end: nat)
    requires HeaderEnds(raw, offset, end) && HasNoSize(raw[offset..end])
    ensures IsStep(raw, offset, AfterHeader(raw, end, None))
  {
  }

  lemma {:induction false} SizedIs(raw: bytes, offset: nat, end: nat, size: nat)
    requires HeaderEnds(raw, offset, end) && HasSize(raw[offset..end], size)
    ensures IsStep(raw, offset, AfterHeader(raw, end, Some(size)))
  {
    if end + 1 + size < |raw| && raw[end + 1 + size] == NUL {
      var content := raw[end + 1..end + 1 + size];
      assert |content| == size;
    }
  }

  lemma {:induction false} SizeIs(header: bytes)
    ensures match BlobSize(header) case Some(n) => HasSize(header, n) case None => HasNoSize(header)
  {
    forall n: nat ensures BlobSize(header) == Some(n) <==> HasSize(header, n) {
      BlobSizeIff(header, n);
    }
  }

  /** The content, if any, decoded for each of `n` requests. */
  function Decode(raw: bytes, offset: nat, n: nat): (r: seq<Option<bytes>>)
    ensures |r| == n
    decreases n
  {
    if n == 0 then []
    else match DecodeStep(raw, offset)
      case Stop => seq(n, _ => None)
      case Skip(next) => [None] + Decode(raw, next, n - 1)
      case Take(content, next) => [Some(content)] + Decode(raw, next, n - 1)
  }

  /** The replies git gives: a blob, or a header that announces no blob. */
  datatype Reply = Blob(oid: bytes, content: bytes) | Other(header: bytes)

  ghost predicate WellFormed(r: Reply) {
    match r
    case Blob(oid, _) => IsObjectName(oid)
    case Other(header) => NUL !in header && BlobSize(header).None?
  }

  /** The stream: headers end in NUL, contents end in NUL. */
  function PrintAll(replies: seq<Reply>): bytes {
    if replies == [] then []
    else match replies[0]
      case Blob(oid, content) => BlobHeader(oid, |content|) + [NUL] + (content + [NUL] + PrintAll(replies[1..]))
      case Other(header) => header + [NUL] + PrintAll(replies[1..])
  }

  function Contents(replies: seq<Reply>): seq<Option<bytes>> {
    seq(|replies|, i requires 0 <= i < |replies| =>
      match replies[i] case Blob(_, content) => Some(content) case Other(_) => None)
  }

  lemma {:induction false} NulAt(raw: bytes, offset: nat, end: nat)
    requires offset <= end < |raw| && raw[end] == NUL && forall i :: offset <= i < end ==> raw[i] != NUL
    ensures IndexOfNul(raw, offset) == Some(end)
    decreases end - offset
  {
    if offset < end {
      NulAt(raw, offset + 1, end);
    }
  }

  /** A header in a stream is found again, and the bytes after it start right behind its NUL. */
  lemma {:induction false} HeaderAt(raw: bytes, offset: nat, header: bytes, rest: bytes)
    requires offset <= |raw| && raw[offset..] == header + [NUL] + rest
    requires NUL !in header
    ensures IndexOfNul(raw, offset) == Some(offset + |header|)
    ensures raw[offset..offset + |header|] == header
    ensures raw[offset + |header| + 1..] == rest
  {
    var tail := raw[offset..];
    forall i | offset <= i < offset + |header| ensures raw[i] != NUL {
      assert raw[i] == tail[i - offset] == header[i - offset];
    }
    assert raw[offset + |header|] == tail[|header|];
    NulAt(raw, offset, offset + |header|);
    assert raw[offset..offset + |header|] == tail[..|header|];
    assert raw[offset + |header| + 1..] == tail[|header| + 1..];
  }

  lemma {:induction false} BlobAt(raw: bytes, offset: nat, oid: bytes, content: bytes, rest: bytes)
    requires offset <= |raw| && IsObjectName(oid)
    requires raw[offset..] == BlobHeader(oid, |content|) + [NUL] + (content + [NUL] + rest)
    ensures var step := DecodeStep(raw, offset);
      step.Take? && step.content == content && step.offset <= |raw| && raw[step.offset..] == rest
  {
    var header := BlobHeader(oid, |content|);
    var start := offset + |header| + 1;
    assert BlobSize(header) == Some(|content|) && NUL !in header by {
      BlobHeaderParses(oid, |content|);
    }
    FramedAt(raw, offset, header, content, rest);
    TakeStep(raw, offset, offset + |header|, |content|);
  }

  lemma {:induction false} FramedAt(raw: bytes, offset: nat, header: bytes, content: bytes, rest: bytes)
    requires offset <= |raw| && NUL !in header
    requires raw[offset..] == header + [NUL] + (content + [NUL] + rest)
    ensures var end := offset + |header|;
      && IndexOfNul(raw, offset) == Some(end) && end <= |raw| && raw[offset..end] == header
      && end + 1 + |content| < |raw| && raw[end + 1 + |content|] == NUL && raw[end + 1..end + 1 + |content|] == content
      && raw[end + 1 + |content| + 1..] == rest
  {
    HeaderAt(raw, offset, header, content + [NUL] + rest);
    assert |raw[offset..]| == |header| + 1 + |content + [NUL] + rest|;
    ContentAt(raw, offset + |header| + 1, content, rest);
  }

  lemma {:induction false} TakeStep(raw: bytes, offset: nat, end: nat, size: nat)
    requires IndexOfNul(raw, offset) == Some(end) && BlobSize(raw[offset..end]) == Some(size)
    requires end + 1 + size < |raw| && raw[end + 1 + size] == NUL
    ensures DecodeStep(raw, offset) == Take(raw[end + 1..end + 1 + size], end + 1 + size + 1)
  {
  }

  lemma {:induction false} ContentAt(raw: bytes, start: nat, content: bytes, rest: bytes)
    requires start <= |raw| && raw[start..] == content + [NUL] + rest
    ensures start + |content| < |raw| && raw[start + |content|] == NUL && raw[start..start + |content|] == content
    ensures raw[start + |content| + 1..] == rest
  {
    var tail := raw[start..];
    assert |tail| == |content| + 1 + |rest|;
    assert raw[start + |content|] == tail[|content|];
    assert raw[start..start + |content|] == tail[..|content|];
    assert raw[start + |content| + 1..] == tail[|content| + 1..];
  }

  /** Decoding inverts printing: every blob comes back byte for byte, embedded NULs included. */
  lemma {:induction false} DecodeInvertsPrint(raw: bytes, offset: nat, replies: seq<Reply>)
    requires forall i :: 0 <= i < |replies| ==> WellFormed(replies[i])
    requires offset <= |raw| && raw[offset..] == PrintAll(replies)
    ensures Decode(raw, offset, |replies|) == Contents(replies)
    decreases |replies|
  {
    if replies != [] {
      var rest, step := replies[1..], DecodeStep(raw, offset);
      FirstReply(raw, offset, replies[0], PrintAll(rest));
      DecodeInvertsPrint(raw, step.offset, rest);
      assert Contents(replies) == [Contents(replies)[0]] + Contents(rest);
    }
  }

  lemma {:induction false} FirstReply(raw: bytes, offset: nat, reply: Reply, rest: bytes)
    requires WellFormed(reply) && offset <= |raw|
    requires raw[offset..] == match reply
                              case Blob(oid, content) => BlobHeader(oid, |content|) + [NUL] + (content + [NUL] + rest)
                              case Other(header) => header + [NUL] + rest
    ensures var step := DecodeStep(raw, offset);
      && !step.Stop? && step.offset <= |raw| && raw[step.offset..] == rest
      && (if reply.Blob? then step.Take? && step.content == reply.content else step.Skip?)
  {
    match reply {
      case Blob(oid, content) =>
        BlobAt(raw, offset, oid, content, rest);
      case Other(header) =>
        HeaderAt(raw, offset, header, rest);
        assert |raw[offset..]| == |header| + 1 + |rest|;
    }
  }

  /** `part` knows no more than `whole`, and nothing different. */
  ghost predicate Below(part: seq<Option<bytes>>, whole: seq<Option<bytes>>) {
    |part| == |whole| && forall i :: 0 <= i < |part| ==> part[i].None? || part[i] == whole[i]
  }

  lemma {:induction false} NulInPrefix(part: bytes, raw: bytes, offset: nat)
    requires part <= raw && IndexOfNul(part, offset).Some?
    ensures IndexOfNul(raw, offset) == IndexOfNul(part, offset)
    decreases |part| - offset
  {
    if part[offset] != NUL {
      NulInPrefix(part, raw, offset + 1);
    }
  }

  /** Decoding any prefix of any stream never yields a wrong text, only fewer. */
  lemma {:induction false} TruncationIsSafe(part: bytes, raw: bytes, offset: nat, n: nat)
    requires part <= raw
    ensures Below(Decode(part, offset, n), Decode(raw, offset, n))
    decreases n
  {
    if n > 0 {
      match DecodeStep(part, offset) {
        case Stop =>
        case Skip(next) =>
          StepInPrefix(part, raw, offset);
          TruncationIsSafe(part, raw, next, n - 1);
          BelowFirst(None, Decode(part, next, n - 1), Decode(raw, next, n - 1));
        case Take(content, next) =>
          StepInPrefix(part, raw, offset);
          TruncationIsSafe(part, raw, next, n - 1);
          BelowFirst(Some(content), Decode(part, next, n - 1), Decode(raw, next, n - 1));
      }
    }
  }

  lemma {:induction false} BelowFirst(first: Option<bytes>, part: seq<Option<bytes>>, whole: seq<Option<bytes>>)
    requires Below(part, whole)
    ensures Below([first] + part, [first] + whole)
  {
  }

  /** A step that does not stop is the same in a longer stream. */
  lemma {:induction false} StepInPrefix(part: bytes, raw: bytes, offset: nat)
    requires part <= raw && !DecodeStep(part, offset).Stop?
    ensures DecodeStep(raw, offset) == DecodeStep(part, offset)
  {
    NulInPrefix(part, raw, offset);
    var end := IndexOfNul(part, offset).value;
    assert part[offset..end] == raw[offset..end];
    var step := DecodeStep(part, offset);
    if step.Take? {
      assert part[end + 1..step.offset - 1] == raw[end + 1..step.offset - 1];
    }
  }

  // ---------------------------------------------------------------------------------------------
  // Reading blobs: sizes first, contents of the admissible ones second
  // ---------------------------------------------------------------------------------------------

  datatype Request = Request(key: string, object_: bytes)

  datatype SourceText = SourceText(text: Option<bytes>, omitted: bool)

  ghost predicate KeysDistinct(requests: seq<Request>) {
    forall i, j :: 0 <= i < j < |requests| ==> requests[i].key != requests[j].key
  }

  function NoHeaders(n: nat): (r: seq<Option<bytes>>)
    ensures |r| == n && forall i :: 0 <= i < n ==> r[i] == None
  {
    if n == 0 then [] else [None] + NoHeaders(n - 1)
  }

  /** The next `n` headers of the stream; beyond its end there are none. */
  function HeadersIn(raw: bytes, offset: nat, n: nat): (r: seq<Option<bytes>>)
    ensures |r| == n
    decreases n
  {
    if n == 0 then []
    else
      var end := IndexOfNul(raw, offset);
      if end.None? then NoHeaders(n) else [Some(raw[offset..end.value])] + HeadersIn(raw, end.value + 1, n - 1)
  }

  function SizeOf(header: Option<bytes>): Option<nat> {
    match header case None => None case Some(h) => BlobSize(h)
  }

  function SizesOf(headers: seq<Option<bytes>>): (r: seq<Option<nat>>)
    ensures |r| == |headers| && forall i :: 0 <= i < |r| ==> r[i] == SizeOf(headers[i])
  {
    if headers == [] then [] else [SizeOf(headers[0])] + SizesOf(headers[1..])
  }

  /** The size reported for each of `n` requests; requests beyond the end of the stream get none. */
  function Sizes(raw: bytes, offset: nat, n: nat): (r: seq<Option<nat>>)
    ensures |r| == n
  {
    SizesOf(HeadersIn(raw, offset, n))
  }

  lemma {:induction false} SizesHere(raw: bytes, offset: nat, n: nat)
    requires n > 0
    ensures var end, sizes := IndexOfNul(raw, offset), Sizes(raw, offset, n);
      if end.None? then forall j :: 0 <= j < n ==> sizes[j] == None
      else sizes[0] == BlobSize(raw[offset..end.value]) && sizes[1..] == Sizes(raw, end.value + 1, n - 1)
  {
    var end := IndexOfNul(raw, offset);
    if end.Some? {
      assert HeadersIn(raw, offset, n)[1..] == HeadersIn(raw, end.value + 1, n - 1);
    }
  }

  /** The sizes looked up for the requests, in order. */
  function Reported(requests: seq<Request>, info: map<string, Option<nat>>): (r: seq<Option<nat>>)
    ensures |r| == |requests|
    ensures forall i :: 0 <= i < |r| ==> r[i] == if requests[i].key in info then info[requests[i].key] else None
  {
    if requests == [] then []
    else [if requests[0].key in info then info[requests[0].key] else None] + Reported(requests[1..], info)
  }

  method BatchBlobInfo(raw: bytes, requests: seq<Request>) returns (info: map<string, Option<nat>>)
    requires KeysDistinct(requests)
    ensures Reported(requests, info) == Sizes(raw, 0, |requests|)
  {
    info := map[];
    var offset: nat := 0;
    SizesStart(raw, requests);
    for i := 0 to |requests|
      invariant SizesLeft(raw, requests, info, i, offset)
    {
      ghost var before, at := info, offset;
      var end := IndexOfNul(raw, offset);
      if end.None? {
        SizesStop(raw, requests, info, i, offset);
        return;
      }
      info := info[requests[i].key := BlobSize(raw[offset..end.value])];
      offset := end.value + 1;
      SizesNext(raw, requests, before, i, at, info, offset);
    }
    SizesEnd(raw, requests, info, offset);
  }

  /** The first `i` sizes are recorded, and those after them are the ones of the stream from `offset` on. */
  ghost predicate SizesLeft(raw: bytes, requests: seq<Request>, info: map<string, Option<nat>>, i: nat, offset: nat)
    requires i <= |requests|
  {
    var sizes := Sizes(raw, 0, |requests|);
    sizes[i..] == Sizes(raw, offset, |requests| - i) && SizedUpTo(requests, sizes, info, i)
  }

  lemma {:induction false} SizesStart(raw: bytes, requests: seq<Request>)
    ensures SizesLeft(raw, requests, map[], 0, 0)
  {
    var sizes := Sizes(raw, 0, |requests|);
    assert sizes[0..] == sizes;
  }

  lemma {:induction false} SizesEnd(raw: bytes, requests: seq<Request>, info: map<string, Option<nat>>, offset: nat)
    requires SizesLeft(raw, requests, info, |requests|, offset)
    ensures Reported(requests, info) == Sizes(raw, 0, |requests|)
  {
    ReportedIs(requests, Sizes(raw, 0, |requests|), info, |requests|);
  }

  /** At the end of the stream everything is reported. */
  lemma {:induction false} SizesStop(raw: bytes, requests: seq<Request>, info: map<string, Option<nat>>, i: nat, offset: nat)
    requires i < |requests| && SizesLeft(raw, requests, info, i, offset) && IndexOfNul(raw, offset).None?
    ensures Reported(requests, info) == Sizes(raw, 0, |requests|)
  {
    SizesFrom(raw, offset, Sizes(raw, 0, |requests|), i);
    ReportedIs(requests, Sizes(raw, 0, |requests|), info, i);
  }

  /** Otherwise the next header gives the next size. */
  lemma {:induction false} SizesNext(raw: bytes, requests: seq<Request>, info: map<string, Option<nat>>, i: nat, offset: nat,
                                     info': map<string, Option<nat>>, offset': nat)
    requires KeysDistinct(requests) && i < |requests| && SizesLeft(raw, requests, info, i, offset)
    requires IndexOfNul(raw, offset) == Some(offset' - 1)
    requires info' == info[requests[i].key := BlobSize(raw[offset..offset' - 1])]
    ensures SizesLeft(raw, requests, info', i + 1, offset')
  {
    var sizes := Sizes(raw, 0, |requests|);
    assert sizes[i] == BlobSize(raw[offset..offset' - 1]) && sizes[i + 1..] == Sizes(raw, offset', |requests| - i - 1) by {
      SizesFrom(raw, offset, sizes, i);
    }
    SizedStep(requests, sizes, info, i, sizes[i]);
  }

  lemma {:induction false} SizedStep(requests: seq<Request>, sizes: seq<Option<nat>>, info: map<string, Option<nat>>, i: nat, size: Option<nat>)
    requires KeysDistinct(requests) && i < |requests| == |sizes| && SizedUpTo(requests, sizes, info, i) && sizes[i] == size
    ensures SizedUpTo(requests, sizes, info[requests[i].key := size], i + 1)
  {
  }

  lemma {:induction false} ReportedIs(requests: seq<Request>, sizes: seq<Option<nat>>, info: map<string, Option<nat>>, i: nat)
    requires i <= |requests| == |sizes| && SizedUpTo(requests, sizes, info, i)
    requires forall j :: i <= j < |sizes| ==> sizes[j] == None
    ensures Reported(requests, info) == sizes
  {
  }

  lemma {:induction false} SizesFrom(raw: bytes, offset: nat, sizes: seq<Option<nat>>, i: nat)
    requires i < |sizes| && sizes[i..] == Sizes(raw, offset, |sizes| - i)
    ensures var end := IndexOfNul(raw, offset);
      if end.None? then forall j :: i <= j < |sizes| ==> sizes[j] == None
      else sizes[i] == BlobSize(raw[offset..end.value]) && sizes[i + 1..] == Sizes(raw, end.value + 1, |sizes| - i - 1)
  {
    SizesHere(raw, offset, |sizes| - i);
    assert forall j :: i <= j < |sizes| ==> sizes[j] == sizes[i..][j - i];
    assert sizes[i + 1..] == sizes[i..][1..];
  }

  /** The first `i` requests have their sizes recorded, and no later one has. */
  ghost predicate SizedUpTo(requests: seq<Request>, sizes: seq<Option<nat>>, info: map<string, Option<nat>>, i: nat)
    requires i <= |requests| == |sizes|
  {
    && (forall j :: 0 <= j < i ==> requests[j].key in info && info[requests[j].key] == sizes[j])
    && forall j :: i <= j < |requests| ==> requests[j].key !in info
  }

  predicate Readable(size: Option<nat>) {
    size.Some? && size.value <= MAX_GIT_BLOB_BYTES
  }

  /** The requests whose announced size is admissible, in order. */
  function ReadableRequests(requests: seq<Request>, sizes: seq<Option<nat>>): (r: seq<Request>)
    requires |sizes| == |requests|
    ensures forall x :: x in r ==> x in requests
  {
    if requests == [] then []
    else (if Readable(sizes[0]) then [requests[0]] else []) + ReadableRequests(requests[1..], sizes[1..])
  }

  /** Content by key; of several requests with one key the last with a content wins. */
  method ReadContents(raw: bytes, requests: seq<Request>, before: map<string, SourceText>)
    returns (result: map<string, SourceText>)
    requires KeysDistinct(requests)
    requires forall r :: r in requests ==> r.key in before && before[r.key] == SourceText(None, false)
    ensures result.Keys == before.Keys
    ensures forall i :: 0 <= i < |requests| ==> result[requests[i].key] == SourceText(Decode(raw, 0, |requests|)[i], false)
    ensures forall k :: k in before && (forall i :: 0 <= i < |requests| ==> requests[i].key != k) ==> result[k] == before[k]
  {
    result := before;
    var offset: nat := 0;
    ghost var contents := Decode(raw, 0, |requests|);
    for i := 0 to |requests|
      invariant contents[i..] == Decode(raw, offset, |requests| - i)
      invariant result.Keys == before.Keys
      invariant forall j :: 0 <= j < i ==> result[requests[j].key] == SourceText(contents[j], false)
      invariant forall j :: i <= j < |requests| ==> requests[j].key in result && result[requests[j].key] == SourceText(None, false)
      invariant forall k :: k in before && (forall j :: 0 <= j < |requests| ==> requests[j].key != k) ==> result[k] == before[k]
    {
      assert contents[i] == contents[i..][0];
      assert contents[i + 1..] == contents[i..][1..];
      match DecodeStep(raw, offset) {
        case Stop =>
          assert forall j :: i <= j < |requests| ==> contents[j] == contents[i..][j - i];
          return;
        case Skip(next) =>
          offset := next;
        case Take(content, next) =>
          result := result[requests[i].key := SourceText(Some(content), false)];
          offset := next;
      }
    }
  }

  lemma {:induction false} ReadableKeys(requests: seq<Request>, sizes: seq<Option<nat>>)
    requires KeysDistinct(requests) && |sizes| == |requests|
    ensures KeysDistinct(ReadableRequests(requests, sizes))
    ensures forall i :: 0 <= i < |requests| ==> (requests[i] in ReadableRequests(requests, sizes) <==> Readable(sizes[i]))
  {
    if requests != [] {
      ReadableKeys(requests[1..], sizes[1..]);
      assert forall x :: x in ReadableRequests(requests[1..], sizes[1..]) ==> x.key != requests[0].key;
    }
    forall i | 0 <= i < |requests| ensures requests[i] in ReadableRequests(requests, sizes) <==> Readable(sizes[i]) {
      ReadableAt(requests, sizes, i);
    }
  }

  lemma {:induction false} ReadableAt(requests: seq<Request>, sizes: seq<Option<nat>>, i: nat)
    requires KeysDistinct(requests) && i < |sizes| == |requests|
    ensures requests[i] in ReadableRequests(requests, sizes) <==> Readable(sizes[i])
  {
    var rest := ReadableRequests(requests[1..], sizes[1..]);
    if i > 0 {
      ReadableAt(requests[1..], sizes[1..], i - 1);
      assert requests[1..][i - 1] == requests[i] != requests[0];
    } else {
      assert requests[0] !in requests[1..];
    }
  }

  /** The text read for a request, given the sizes and the content stream. */
  ghost predicate IsReading(r: Request, size: Option<nat>, readable: seq<Request>, contents: seq<Option<bytes>>, text: SourceText)
    requires |contents| == |readable|
  {
    && text.omitted == (size.Some? && size.value > MAX_GIT_BLOB_BYTES)
    && (!Readable(size) ==> text.text.None?)
    && (Readable(size) ==> exists j :: 0 <= j < |readable| && readable[j] == r && text.text == contents[j])
  }

  function KeysOf(requests: seq<Request>): set<string> {
    set r | r in requests :: r.key
  }

  /** Every request starts without text; oversized blobs are marked as omitted. */
  method MarkOmitted(requests: seq<Request>, sizes: seq<Option<nat>>) returns (initial: map<string, SourceText>)
    requires KeysDistinct(requests) && |sizes| == |requests|
    ensures initial.Keys == KeysOf(requests)
    ensures forall j :: 0 <= j < |requests| ==> requests[j].key in initial
    ensures forall j :: 0 <= j < |requests| ==>
              initial[requests[j].key] == SourceText(None, sizes[j].Some? && sizes[j].value > MAX_GIT_BLOB_BYTES)
  {
    initial := map[];
    for i := 0 to |requests|
      invariant initial.Keys == KeysOf(requests[..i])
      invariant forall j :: 0 <= j < i ==> requests[j].key in initial
      invariant forall j :: 0 <= j < i ==>
                  initial[requests[j].key] == SourceText(None, sizes[j].Some? && sizes[j].value > MAX_GIT_BLOB_BYTES)
    {
      assert requests[..i + 1] == requests[..i] + [requests[i]];
      assert KeysOf(requests[..i + 1]) == KeysOf(requests[..i]) + {requests[i].key};
      initial := initial[requests[i].key := SourceText(None, sizes[i].Some? && sizes[i].value > MAX_GIT_BLOB_BYTES)];
    }
    assert requests[..|requests|] == requests;
  }

  /** Two passes: the sizes of all requests, then the contents of those within the bound. */
  method ReadGitBlobs(requests: seq<Request>, check: bytes, batch: seq<Request> -> bytes) returns (result: map<string, SourceText>)
    requires KeysDistinct(requests)
    ensures result.Keys == KeysOf(requests)
    ensures var sizes := Sizes(check, 0, |requests|);
            var readable := ReadableRequests(requests, sizes);
            forall i :: 0 <= i < |requests| ==>
              IsReading(requests[i], sizes[i], readable, Decode(batch(readable), 0, |readable|), result[requests[i].key])
  {
    var info := BatchBlobInfo(check, requests);
    var sizes := Reported(requests, info);
    var initial := MarkOmitted(requests, sizes);
    var readable := ReadableRequests(requests, sizes);
    ReadableKeys(requests, sizes);
    forall r | r in readable ensures r.key in initial && initial[r.key] == SourceText(None, false) {
      var i :| 0 <= i < |requests| && requests[i] == r;
      assert requests[i] in readable;
    }
    result := ReadContents(batch(readable), readable, initial);
    ghost var contents := Decode(batch(readable), 0, |readable|);
    forall i | 0 <= i < |requests| ensures IsReading(requests[i], sizes[i], readable, contents, result[requests[i].key]) {
      assert requests[i] in requests;
      OneReading(requests, sizes, i, readable, contents, initial, result);
    }
  }

  lemma {:induction false} OneReading(requests: seq<Request>, sizes: seq<Option<nat>>, i: nat, readable: seq<Request>,
                                      contents: seq<Option<bytes>>, initial: map<string, SourceText>, result: map<string, SourceText>)
    requires i < |requests| == |sizes| && KeysDistinct(requests) && |contents| == |readable|
    requires requests[i] in readable <==> Readable(sizes[i])
    requires forall x :: x in readable ==> x in requests
    requires result.Keys == initial.Keys && requests[i].key in initial
    requires initial[requests[i].key] == SourceText(None, sizes[i].Some? && sizes[i].value > MAX_GIT_BLOB_BYTES)
    requires forall j :: 0 <= j < |readable| ==> readable[j].key in result && result[readable[j].key] == SourceText(contents[j], false)
    requires forall k :: k in initial && (forall j :: 0 <= j < |readable| ==> readable[j].key != k) ==> result[k] == initial[k]
    ensures IsReading(requests[i], sizes[i], readable, contents, result[requests[i].key])
  {
    if Readable(sizes[i]) {
      var j :| 0 <= j < |readable| && readable[j] == requests[i];
    } else {
      forall j | 0 <= j < |readable| ensures readable[j].key != requests[i].key {
        assert readable[j] in readable;
      }
    }
  }

  // ---------------------------------------------------------------------------------------------
  // The repository behind the streams
  // ---------------------------------------------------------------------------------------------

  /** Objects by name; what is not listed is reported missing. */
  type Repository = map<bytes, (bytes, bytes)>

  ghost predicate ValidRepository(repo: Repository, requests: seq<Request>) {
    && (forall n :: n in repo ==> IsObjectName(repo[n].0))
    && (forall r :: r in requests ==> NUL !in r.object_)
  }

  function ReplyTo(repo: Repository, r: Request): Reply {
    if r.object_ in repo then Blob(repo[r.object_].0, repo[r.object_].1) else Other(r.object_ + MISSING)
  }

  function ReplyHeader(repo: Repository, r: Request): bytes {
    if r.object_ in repo then BlobHeader(repo[r.object_].0, |repo[r.object_].1|) else r.object_ + MISSING
  }

  function Headers(repo: Repository, requests: seq<Request>): (r: seq<bytes>)
    ensures |r| == |requests|
  {
    if requests == [] then [] else [ReplyHeader(repo, requests[0])] + Headers(repo, requests[1..])
  }

  /** Every header is followed by NUL. */
  function Terminated(headers: seq<bytes>): bytes {
    if headers == [] then [] else headers[0] + [NUL] + Terminated(headers[1..])
  }

  function CheckStream(repo: Repository, requests: seq<Request>): bytes {
    Terminated(Headers(repo, requests))
  }

  function BatchStream(repo: Repository, requests: seq<Request>): bytes {
    PrintAll(seq(|requests|, i requires 0 <= i < |requests| => ReplyTo(repo, requests[i])))
  }

  function SizeIn(repo: Repository, r: Request): Option<nat> {
    if r.object_ in repo then Some(|repo[r.object_].1|) else None
  }

  lemma {:induction false} ReplyHeaderParses(repo: Repository, r: Request)
    requires ValidRepository(repo, [r])
    ensures NUL !in ReplyHeader(repo, r) && BlobSize(ReplyHeader(repo, r)) == SizeIn(repo, r)
    ensures WellFormed(ReplyTo(repo, r))
  {
    assert r in [r];
    MissingIsNoBlob(r.object_);
    if r.object_ in repo {
      BlobHeaderParses(repo[r.object_].0, |repo[r.object_].1|);
    }
  }

  lemma {:induction false} HeadersAt(repo: Repository, requests: seq<Request>, i: nat)
    requires i < |requests|
    ensures Headers(repo, requests)[i] == ReplyHeader(repo, requests[i])
  {
    if i > 0 {
      HeadersAt(repo, requests[1..], i - 1);
    }
  }

  /** A stream of headers gives back the headers, one by one. */
  lemma {:induction false} HeadersOfStream(raw: bytes, offset: nat, headers: seq<bytes>)
    requires forall j :: 0 <= j < |headers| ==> NUL !in headers[j]
    requires offset <= |raw| && raw[offset..] == Terminated(headers)
    ensures forall j :: 0 <= j < |headers| ==> HeadersIn(raw, offset, |headers|)[j] == Some(headers[j])
    decreases |headers|
  {
    if headers != [] {
      var first, rest := headers[0], headers[1..];
      HeaderAt(raw, offset, first, Terminated(rest));
      assert |raw[offset..]| == |first| + 1 + |Terminated(rest)|;
      HeadersOfStream(raw, offset + |first| + 1, rest);
    }
  }

  /** Over a repository every request gets the size of its object, or none if it is missing. */
  lemma {:induction false} SizesOfRepository(repo: Repository, requests: seq<Request>, i: nat)
    requires ValidRepository(repo, requests) && i < |requests|
    ensures Sizes(CheckStream(repo, requests), 0, |requests|)[i] == SizeIn(repo, requests[i])
  {
    var headers, raw := Headers(repo, requests), CheckStream(repo, requests);
    forall j | 0 <= j < |headers| ensures NUL !in headers[j] && BlobSize(headers[j]) == SizeIn(repo, requests[j]) {
      HeadersAt(repo, requests, j);
      assert ValidRepository(repo, [requests[j]]);
      ReplyHeaderParses(repo, requests[j]);
    }
    assert raw[0..] == raw;
    HeadersOfStream(raw, 0, headers);
  }

  lemma {:induction false} ContentsOfRepository(repo: Repository, requests: seq<Request>)
    requires ValidRepository(repo, requests)
    ensures forall i :: 0 <= i < |requests| ==>
      Decode(BatchStream(repo, requests), 0, |requests|)[i]
      == if requests[i].object_ in repo then Some(repo[requests[i].object_].1) else None
  {
    var replies := seq(|requests|, i requires 0 <= i < |requests| => ReplyTo(repo, requests[i]));
    forall i | 0 <= i < |replies| ensures WellFormed(replies[i]) {
      assert ValidRepository(repo, [requests[i]]);
      ReplyHeaderParses(repo, requests[i]);
    }
    var raw := BatchStream(repo, requests);
    assert raw[0..] == PrintAll(replies);
    DecodeInvertsPrint(raw, 0, replies);
  }

  function Stored(repo: Repository, r: Request): SourceText {
    if r.object_ !in repo then SourceText(None, false)
    else if |repo[r.object_].1| > MAX_GIT_BLOB_BYTES then SourceText(None, true)
    else SourceText(Some(repo[r.object_].1), false)
  }

  /** Against a repository the reader returns exactly the stored blobs within the bound. */
  method ReadRepository(repo: Repository, requests: seq<Request>) returns (result: map<string, SourceText>)
    requires KeysDistinct(requests) && ValidRepository(repo, requests)
    ensures result.Keys == KeysOf(requests)
    ensures forall r :: r in requests ==> result[r.key] == Stored(repo, r)
    ensures forall r :: r in requests ==>
              && (result[r.key].text.Some? <==> r.object_ in repo && |repo[r.object_].1| <= 524288)
              && (result[r.key].text.Some? ==> r.object_ in repo && result[r.key].text.value == repo[r.object_].1)
              && (result[r.key].omitted <==> r.object_ in repo && |repo[r.object_].1| > 524288)
  {
    var check := CheckStream(repo, requests);
    ghost var sizes := Sizes(check, 0, |requests|);
    ghost var readable := ReadableRequests(requests, sizes);
    assert ValidRepository(repo, readable);
    ContentsOfRepository(repo, readable);
    result := ReadGitBlobs(requests, check, rs => BatchStream(repo, rs));
    forall r | r in requests ensures result[r.key] == Stored(repo, r) {
      var i :| 0 <= i < |requests| && requests[i] == r;
      SizesOfRepository(repo, requests, i);
      ReadingIsStored(repo, r, readable, Decode(BatchStream(repo, readable), 0, |readable|), result[r.key]);
    }
  }

  lemma {:induction false} ReadingIsStored(repo: Repository, r: Request, readable: seq<Request>, contents: seq<Option<bytes>>, text: SourceText)
    requires |contents| == |readable|
    requires forall j :: 0 <= j < |readable| ==>
      contents[j] == if readable[j].object_ in repo then Some(repo[readable[j].object_].1) else None
    requires IsReading(r, SizeIn(repo, r), readable, contents, text)
    ensures text == Stored(repo, r)
  {
  }
}
