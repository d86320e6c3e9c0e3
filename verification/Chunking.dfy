/** Cutting a document into overlapping chunks and naming the chunks
    (crates/ketebe-server/src/chunking.rs). In the text that is cut a `char` is one Unicode scalar
    value, the unit the program cuts at; in the names of chunks it is one byte, see `Text`. */
module Chunking {
  import opened Wrappers
  import opened Collections
  import opened Text
  import opened Store

  datatype ChunkingConfig = ChunkingConfig(maxChars: nat, overlapChars: nat)

  datatype ChunkingError =
    | InvalidConfig
    | EmptyText
    | ReservedMetadata
    | SchemaMismatch
    | EmbeddingFailed
    | CollectionNotWritable
    | InvalidVector
    | WalFailed
    | SealFailed

  // Refused exactly if a chunk would not reach beyond the one before it.
  function Validate(c: ChunkingConfig): (r: Result<ChunkingConfig, ChunkingError>)
    ensures if c.overlapChars < c.maxChars then r == Ok(c) else r == Err(InvalidConfig)
  {
    if c.maxChars == 0 || c.overlapChars >= c.maxChars then Err(InvalidConfig) else Ok(c)
  }

  datatype TextChunk = TextChunk(ordinal: nat, start: nat, end: nat, text: string)

  function Step(c: ChunkingConfig): (step: nat)
    requires Validate(c).Ok?
    ensures 0 < step <= c.maxChars
  {
    c.maxChars - c.overlapChars
  }

  function Min(a: nat, b: nat): nat {
    if a <= b then a else b
  }

  // The chunk with this ordinal, if the text reaches that far.
  function ChunkAt(text: string, c: ChunkingConfig, i: nat): TextChunk
    requires Validate(c).Ok? && i * Step(c) < |text|
  {
    var start := i * Step(c);
    var end := Min(start + c.maxChars, |text|);
    TextChunk(i, start, end, text[start..end])
  }

  // The chunks are the windows at multiples of the step, up to the first that reaches the end.
  ghost predicate IsChunking(chunks: seq<TextChunk>, text: string, c: ChunkingConfig)
    requires Validate(c).Ok?
  {
    && (chunks == [] <==> text == "")
    && (forall i :: 0 <= i < |chunks| ==> i * Step(c) < |text| && chunks[i] == ChunkAt(text, c, i))
    && (forall i :: 0 <= i < |chunks| ==> (chunks[i].end == |text| <==> i == |chunks| - 1))
  }

  method ChunkText(text: string, c: ChunkingConfig) returns (chunks: seq<TextChunk>)
    requires Validate(c).Ok?
    ensures IsChunking(chunks, text, c)
  {
    if text == "" { return []; }
    var step := c.maxChars - c.overlapChars;
    chunks := [];
    var start := 0;
    while start < |text|
      invariant start == |chunks| * step
      invariant forall i :: 0 <= i < |chunks| ==> i * step < |text| && chunks[i] == ChunkAt(text, c, i)
      invariant forall i :: 0 <= i < |chunks| ==> chunks[i].end < |text|
      invariant start < |text|
      decreases |text| - start
    {
      var end := Min(start + c.maxChars, |text|);
      assert ChunkAt(text, c, |chunks|) == TextChunk(|chunks|, start, end, text[start..end]);
      chunks := chunks + [TextChunk(|chunks|, start, end, text[start..end])];
      if end == |text| { break; }
      start := start + step;
    }
  }

  // ---------------------------------------------------------------- windows

  lemma NextStart(i: nat, step: nat)
    ensures (i + 1) * step == i * step + step
  {
  }

  // All chunks but the last have the full length; neighbours share exactly the overlap, and each
  // chunk reaches beyond the one before it.
  lemma NeighboursOverlap(chunks: seq<TextChunk>, text: string, c: ChunkingConfig, i: nat)
    requires Validate(c).Ok? && IsChunking(chunks, text, c) && i + 1 < |chunks|
    ensures |chunks[i].text| == c.maxChars
    ensures chunks[i + 1].start == chunks[i].end - c.overlapChars
    ensures chunks[i + 1].end > chunks[i].end && |chunks[i + 1].text| > c.overlapChars
    ensures chunks[i].text[Step(c)..] == chunks[i + 1].text[..c.overlapChars]
  {
    assert chunks[i] == ChunkAt(text, c, i) && chunks[i + 1] == ChunkAt(text, c, i + 1);
    NextStart(i, Step(c));
    assert chunks[i].end != |text|;
  }

  // Dropping the overlap from all chunks but the first and joining them.
  function Joined(chunks: seq<TextChunk>, overlap: nat): string
    requires forall i :: 0 < i < |chunks| ==> |chunks[i].text| >= overlap
  {
    if chunks == [] then ""
    else if |chunks| == 1 then chunks[0].text
    else Joined(chunks[..|chunks| - 1], overlap) + chunks[|chunks| - 1].text[overlap..]
  }

  lemma LongEnough(chunks: seq<TextChunk>, text: string, c: ChunkingConfig)
    requires Validate(c).Ok? && IsChunking(chunks, text, c)
    ensures forall i :: 0 < i < |chunks| ==> |chunks[i].text| >= c.overlapChars
  {
    forall i | 0 < i < |chunks|
      ensures |chunks[i].text| >= c.overlapChars
    {
      NeighboursOverlap(chunks, text, c, i - 1);
    }
  }

  lemma DropFromSlice(text: string, start: nat, end: nat, n: nat)
    requires start + n <= end <= |text|
    ensures text[start..end][n..] == text[start + n..end]
  {
  }

  // What a chunk adds to the one before it.
  lemma NewPart(chunks: seq<TextChunk>, text: string, c: ChunkingConfig, i: nat)
    requires Validate(c).Ok? && IsChunking(chunks, text, c) && 0 < i < |chunks|
    ensures chunks[i - 1].end <= chunks[i].end <= |text| && |chunks[i].text| >= c.overlapChars
    ensures chunks[i].text[c.overlapChars..] == text[chunks[i - 1].end..chunks[i].end]
  {
    assert chunks[i] == ChunkAt(text, c, i);
    NeighboursOverlap(chunks, text, c, i - 1);
    DropFromSlice(text, chunks[i].start, chunks[i].end, c.overlapChars);
  }

  lemma {:induction false} JoinedPrefix(chunks: seq<TextChunk>, text: string, c: ChunkingConfig, n: nat)
    requires Validate(c).Ok? && IsChunking(chunks, text, c) && 0 < n <= |chunks|
    requires forall i :: 0 < i < |chunks| ==> |chunks[i].text| >= c.overlapChars
    ensures chunks[n - 1].end <= |text| && Joined(chunks[..n], c.overlapChars) == text[..chunks[n - 1].end]
  {
    assert chunks[n - 1] == ChunkAt(text, c, n - 1);
    if n == 1 {
      assert text[0..chunks[0].end] == text[..chunks[0].end];
    } else {
      JoinedPrefix(chunks, text, c, n - 1);
      NewPart(chunks, text, c, n - 1);
      assert chunks[..n][..n - 1] == chunks[..n - 1];
      JoinedStep(chunks[..n], c.overlapChars, text, chunks[n - 2].end, chunks[n - 1].end);
    }
  }

  lemma JoinedStep(chunks: seq<TextChunk>, overlap: nat, text: string, before: nat, end: nat)
    requires |chunks| > 1 && before <= end <= |text|
    requires forall i :: 0 < i < |chunks| ==> |chunks[i].text| >= overlap
    requires Joined(chunks[..|chunks| - 1], overlap) == text[..before]
    requires chunks[|chunks| - 1].text[overlap..] == text[before..end]
    ensures Joined(chunks, overlap) == text[..end]
  {
    JoinPrefix(text, before, end);
  }

  // The chunks lose nothing: joined without their overlaps they are the text.
  lemma ChunksCoverText(chunks: seq<TextChunk>, text: string, c: ChunkingConfig)
    requires Validate(c).Ok? && IsChunking(chunks, text, c)
    ensures forall i :: 0 < i < |chunks| ==> |chunks[i].text| >= c.overlapChars
    ensures Joined(chunks, c.overlapChars) == text
  {
    LongEnough(chunks, text, c);
    if chunks != [] {
      JoinedPrefix(chunks, text, c, |chunks|);
      assert chunks[..|chunks|] == chunks;
    }
  }

  function CeilDiv(a: nat, b: nat): nat
    requires b > 0
  {
    (a + b - 1) / b
  }

  lemma CeilDivIs(a: nat, b: nat, q: nat)
    requires b > 0 && q * b >= a && (q == 0 || (q - 1) * b < a)
    ensures CeilDiv(a, b) == q
  {
    var r := q * b - a;
    assert a + b - 1 == q * b + (b - 1 - r);
    if q > 0 {
      NextStart(q - 1, b);
    }
    DivisionOf(a + b - 1, b, q, b - 1 - r);
  }

  // How many chunks there are.
  lemma ChunkCount(chunks: seq<TextChunk>, text: string, c: ChunkingConfig)
    requires Validate(c).Ok? && IsChunking(chunks, text, c) && text != ""
    ensures |chunks| == if |text| <= c.maxChars then 1 else CeilDiv(|text| - c.overlapChars, Step(c))
  {
    var n := |chunks|;
    var last := chunks[n - 1];
    assert last == ChunkAt(text, c, n - 1);
    if |text| <= c.maxChars {
      assert chunks[0] == ChunkAt(text, c, 0);
    } else {
      NextStart(n - 1, Step(c));
      if n > 1 {
        NeighboursOverlap(chunks, text, c, n - 2);
      }
      CeilDivIs(|text| - c.overlapChars, Step(c), n);
    }
  }

  // ---------------------------------------------------------------- names of chunks

  // One `char` per byte, see `Text`.
  predicate IsBytes(s: string) {
    forall i :: 0 <= i < |s| ==> s[i] as int < 256
  }

  function HexEncode(bytes: string): (s: string)
    requires IsBytes(bytes)
    ensures |s| == 2 * |bytes| && AllHex(s)
    ensures forall i :: 0 <= i < |bytes| ==> s[2 * i..2 * i + 2] == Hex(bytes[i] as int, 2)
  {
    if bytes == "" then "" else Hex(bytes[0] as int, 2) + HexEncode(bytes[1..])
  }

  predicate ValidParent(id: RecordId) {
    id.StringId? ==> IsBytes(id.text)
  }

  function EncodedParent(parent: RecordId): string
    requires ValidParent(parent)
  {
    match parent
    case StringId(value) => "s:" + HexEncode(value)
    case Unsigned(value) => "u:" + Decimal(value)
  }

  function ChunkName(parent: RecordId, ordinal: nat): string
    requires ValidParent(parent)
  {
    "_ketebe_chunk:" + EncodedParent(parent) + ":" + Decimal(ordinal)
  }

  function ChunkRecordId(parent: RecordId, ordinal: nat): RecordId
    requires ValidParent(parent)
  {
    StringId(ChunkName(parent, ordinal))
  }

  lemma TagFirst(prefix: string, tag: string, tagged: string, body: string, colon: string, number: string)
    requires prefix + tag == tagged
    ensures prefix + (tag + body) + colon + number == tagged + body + colon + number
  {
  }

  // The form of the names.
  lemma ChunkNameIs(parent: RecordId, ordinal: nat)
    requires ValidParent(parent)
    ensures parent.StringId? ==>
              ChunkName(parent, ordinal) == "_ketebe_chunk:s:" + HexEncode(parent.text) + ":" + Decimal(ordinal)
    ensures parent.Unsigned? ==>
              ChunkName(parent, ordinal) == "_ketebe_chunk:u:" + Decimal(parent.number) + ":" + Decimal(ordinal)
  {
    TagFirst("_ketebe_chunk:", "s:", "_ketebe_chunk:s:", Body(parent), ":", Decimal(ordinal));
    TagFirst("_ketebe_chunk:", "u:", "_ketebe_chunk:u:", Body(parent), ":", Decimal(ordinal));
  }

  lemma {:induction false} HexEncodeInjective(a: string, b: string)
    requires IsBytes(a) && IsBytes(b) && HexEncode(a) == HexEncode(b)
    ensures a == b
  {
    if a != "" && b != "" {
      var x, y := a[0] as int, b[0] as int;
      assert HexEncode(a)[..2] == Hex(x, 2) && HexEncode(b)[..2] == Hex(y, 2);
      assert HexEncode(a)[2..] == HexEncode(a[1..]) && HexEncode(b)[2..] == HexEncode(b[1..]);
      assert Pow16(2) == 256;
      HexRoundTrip(x, 2);
      HexRoundTrip(y, 2);
      HexEncodeInjective(a[1..], b[1..]);
      assert a == [a[0]] + a[1..] && b == [b[0]] + b[1..];
    }
  }

  lemma NoColon(s: string)
    requires AllHex(s) || AllDigits(s)
    ensures ':' !in s
  {
  }

  // The part of the encoded parent after its tag.
  function Body(parent: RecordId): (s: string)
    requires ValidParent(parent)
    ensures ':' !in s
  {
    match parent
    case StringId(value) => NoColon(HexEncode(value)); HexEncode(value)
    case Unsigned(value) => NoColon(Decimal(value)); Decimal(value)
  }

  function Tag(parent: RecordId): (s: string)
    ensures |s| == 2
  {
    if parent.StringId? then "s:" else "u:"
  }

  lemma NameParts(parent: RecordId, ordinal: nat)
    requires ValidParent(parent)
    ensures var name := ChunkName(parent, ordinal);
            |name| >= 16 && name[14] == Tag(parent)[0] && name[16..] == Body(parent) + [':'] + Decimal(ordinal)
  {
    assert |"_ketebe_chunk:"| == 14;
    PartsOfName(ChunkName(parent, ordinal), "_ketebe_chunk:", Tag(parent), Body(parent), Decimal(ordinal));
  }

  lemma PartsOfName(name: string, prefix: string, tag: string, body: string, number: string)
    requires name == prefix + (tag + body) + ":" + number && |prefix| == 14 && |tag| == 2
    ensures |name| >= 16 && name[14] == tag[0] && name[16..] == body + [':'] + number
  {
    TagFirst(prefix, tag, prefix + tag, body, ":", number);
    var head := prefix + tag;
    assert |head| == 16 && head[14] == tag[0] && name == head + (body + [':'] + number);
  }

  lemma SameName(p: RecordId, m: nat, q: RecordId, n: nat)
    requires ValidParent(p) && ValidParent(q) && ChunkName(p, m) == ChunkName(q, n)
    ensures Tag(p)[0] == Tag(q)[0] && Body(p) + [':'] + Decimal(m) == Body(q) + [':'] + Decimal(n)
  {
    NameParts(p, m);
    NameParts(q, n);
  }

  // Distinct parents and ordinals have distinct chunk ids, string parents and numbers included.
  lemma ChunkIdsInjective(p: RecordId, m: nat, q: RecordId, n: nat)
    requires ValidParent(p) && ValidParent(q)
    requires ChunkRecordId(p, m) == ChunkRecordId(q, n)
    ensures p == q && m == n
  {
    SameName(p, m, q, n);
    SplitAtDelimiter(Body(p), Decimal(m), Body(q), Decimal(n), ':');
    DecimalRoundTrip(m);
    DecimalRoundTrip(n);
    SameBody(p, q);
  }

  lemma SameBody(p: RecordId, q: RecordId)
    requires ValidParent(p) && ValidParent(q) && Body(p) == Body(q) && Tag(p)[0] == Tag(q)[0]
    ensures p == q
  {
    match p
    case StringId(v) => HexEncodeInjective(v, q.text);
    case Unsigned(v) =>
      DecimalRoundTrip(v);
      DecimalRoundTrip(q.number);
  }
}
