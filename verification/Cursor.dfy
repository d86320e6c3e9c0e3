/** The canonical query string a pagination cursor is bound to
    (crates/ketebe-server/src/cursor.rs). */
module Cursor {
  import opened Wrappers
  import opened Text
  import opened Predicates

  type Bits32 = n: nat | n < 0x1_0000_0000

  datatype DistanceMetric = Cosine | Dot | L2

  datatype ExecutionPreference = Auto | Exact | Hnsw

  datatype Binding = Binding(
    collection: string,
    vector: seq<Bits32>,
    filter: Option<Predicate>,
    execution: ExecutionPreference,
    profile: Option<string>,
    metric: DistanceMetric)

  // ---------------------------------------------------------------- canonical text

  function MetadataText(v: Metadata): (s: string)
    ensures s != "" && s[0] != ']'
    decreases v, 1
  {
    match v
    case Null => "n"
    case Bool(flag) => if flag then "t" else "f"
    case Number(bits) => "d" + Hex(bits, 16)
    case Str(text) => "s" + StringText(text)
    case Array(items) => "[" + ItemsText(items) + "]"
    case Object(fields) => "{" + FieldsText(fields) + "}"
  }

  function ItemsText(items: seq<Metadata>): string
    decreases items, 0
  {
    if items == [] then "" else MetadataText(items[0]) + "," + ItemsText(items[1..])
  }

  function FieldText(f: Field): (s: string)
    ensures s != "" && IsDigit(s[0])
    decreases f, 2
  {
    StringText(f.key) + ":" + MetadataText(f.value) + ","
  }

  function FieldsText(fields: seq<Field>): string
    decreases fields, 0
  {
    if fields == [] then "" else FieldText(fields[0]) + FieldsText(fields[1..])
  }

  function PathText(segments: seq<string>): string {
    if segments == [] then "" else StringText(segments[0]) + "/" + PathText(segments[1..])
  }

  datatype Keyword =
    | KeyEq | KeyNe | KeyLt | KeyLte | KeyGt | KeyGte | KeyContains
    | KeyExists | KeyIn | KeyAnd | KeyOr | KeyNot

  // The text of a keyword together with its opening bracket.
  function KeywordText(k: Keyword): (s: string)
    ensures |s| >= 3 && s[0] != ')' && s[0] != '-'
  {
    match k
    case KeyEq => "eq["
    case KeyNe => "ne["
    case KeyLt => "lt["
    case KeyLte => "lte["
    case KeyGt => "gt["
    case KeyGte => "gte["
    case KeyContains => "contains["
    case KeyExists => "exists["
    case KeyIn => "in["
    case KeyAnd => "and("
    case KeyOr => "or("
    case KeyNot => "not("
  }

  function KeywordOf(p: Predicate): Keyword {
    match p
    case Eq(_, _) => KeyEq
    case Ne(_, _) => KeyNe
    case Lt(_, _) => KeyLt
    case Lte(_, _) => KeyLte
    case Gt(_, _) => KeyGt
    case Gte(_, _) => KeyGte
    case Contains(_, _) => KeyContains
    case Exists(_) => KeyExists
    case In(_, _) => KeyIn
    case And(_) => KeyAnd
    case Or(_) => KeyOr
    case Not(_) => KeyNot
  }

  function PredicateText(p: Predicate): (s: string)
    ensures s != "" && s[0] != ')' && s[0] != '-'
    decreases p, 2
  {
    KeywordText(KeywordOf(p)) + BodyText(p)
  }

  // What follows the opening bracket.
  function BodyText(p: Predicate): string
    decreases p, 1
  {
    match p
    case Exists(path) => PathText(path) + "]"
    case In(path, candidates) => PathText(path) + ":" + ItemsText(candidates) + "]"
    case And(operands) => OperandsText(operands) + ")"
    case Or(operands) => OperandsText(operands) + ")"
    case Not(operand) => PredicateText(operand) + ")"
    case _ => ComparisonText(p.path, p.expected)
  }

  function ComparisonText(path: FieldPath, expected: Metadata): string {
    PathText(path) + ":" + MetadataText(expected) + "]"
  }

  function OperandsText(operands: seq<Predicate>): string
    decreases operands, 0
  {
    if operands == [] then "" else PredicateText(operands[0]) + ";" + OperandsText(operands[1..])
  }

  function MetricText(m: DistanceMetric): string {
    match m
    case Cosine => "cosine"
    case Dot => "dot"
    case L2 => "l2"
  }

  function ExecutionText(e: ExecutionPreference): string {
    match e
    case Auto => "auto"
    case Exact => "exact"
    case Hnsw => "hnsw"
  }

  function VectorText(vector: seq<Bits32>): string {
    if vector == [] then "" else Hex(vector[0], 8) + "," + VectorText(vector[1..])
  }

  function FilterText(filter: Option<Predicate>): string {
    match filter
    case None => "-"
    case Some(p) => PredicateText(p)
  }

  const DEFAULT_PROFILE: string := "default@1"

  function ProfileName(profile: Option<string>): string {
    match profile
    case None => DEFAULT_PROFILE
    case Some(name) => name
  }

  const PREFIX: string := "cursor-query-v1|"

  function CanonicalText(b: Binding): string {
    PREFIX + StringText(b.collection) + "|" + MetricText(b.metric) + "|" + ExecutionText(b.execution) + "|"
    + StringText(ProfileName(b.profile)) + "|" + VectorText(b.vector) + "|" + FilterText(b.filter)
  }

  // ---------------------------------------------------------------- parsing it back

  function ParseHex(width: nat, s: string): (r: Parsed<nat>)
    ensures r.Accept? ==> |r.rest| == |s| - width
  {
    if |s| >= width && AllHex(s[..width]) then Accept(HexValue(s[..width]), s[width..]) else Reject
  }

  function ParseMetadata(s: string): (r: Parsed<Metadata>)
    ensures r.Accept? ==> |r.rest| < |s|
    decreases |s|, 0
  {
    if s == "" then Reject
    else if s[0] == 'n' then Accept(Null, s[1..])
    else if s[0] == 't' then Accept(Bool(true), s[1..])
    else if s[0] == 'f' then Accept(Bool(false), s[1..])
    else if s[0] == 'd' then
      var n := ParseHex(16, s[1..]);
      if n.Accept? && n.value < TWO_TO_64 then Accept(Number(n.value), n.rest) else Reject
    else if s[0] == 's' then
      var t := ParseString(s[1..]);
      if t.Accept? then Accept(Str(t.value), t.rest) else Reject
    else if s[0] == '[' then
      var items := ParseItems(s[1..]);
      if items.Accept? then Accept(Array(items.value), items.rest) else Reject
    else if s[0] == '{' then
      var fields := ParseFields(s[1..]);
      if fields.Accept? then Accept(Object(fields.value), fields.rest) else Reject
    else Reject
  }

  // Values each followed by a comma, up to and including the closing bracket.
  function ParseItems(s: string): (r: Parsed<seq<Metadata>>)
    ensures r.Accept? ==> |r.rest| < |s|
    decreases |s|, 1
  {
    if s == "" then Reject
    else if s[0] == ']' then Accept([], s[1..])
    else
      var v := ParseMetadata(s);
      if v.Reject? || v.rest == "" || v.rest[0] != ',' then Reject
      else
        var more := ParseItems(v.rest[1..]);
        if more.Accept? then Accept([v.value] + more.value, more.rest) else Reject
  }

  function ParseFields(s: string): (r: Parsed<seq<Field>>)
    ensures r.Accept? ==> |r.rest| < |s|
    decreases |s|, 1
  {
    if s == "" then Reject
    else if s[0] == '}' then Accept([], s[1..])
    else
      var f := ParseField(s);
      if f.Reject? then Reject
      else
        var more := ParseFields(f.rest);
        if more.Accept? then Accept([f.value] + more.value, more.rest) else Reject
  }

  function ParseField(s: string): (r: Parsed<Field>)
    ensures r.Accept? ==> |r.rest| < |s|
    decreases |s|, 0
  {
    var k := ParseString(s);
    if k.Reject? || k.rest == "" || k.rest[0] != ':' then Reject
    else
      var v := ParseMetadata(k.rest[1..]);
      if v.Reject? || v.rest == "" || v.rest[0] != ',' then Reject
      else Accept(Field(k.value, v.value), v.rest[1..])
  }

  // Segments each followed by a slash, up to and including `stop`.
  function ParsePath(stop: char, s: string): (r: Parsed<seq<string>>)
    ensures r.Accept? ==> |r.rest| < |s|
    decreases |s|
  {
    if s == "" then Reject
    else if s[0] == stop then Accept([], s[1..])
    else
      var segment := ParseString(s);
      if segment.Reject? || segment.rest == "" || segment.rest[0] != '/' then Reject
      else
        var more := ParsePath(stop, segment.rest[1..]);
        if more.Accept? then Accept([segment.value] + more.value, more.rest) else Reject
  }

  const KEYWORDS: seq<Keyword> :=
    [KeyEq, KeyNe, KeyLt, KeyLte, KeyGt, KeyGte, KeyContains, KeyExists, KeyIn, KeyAnd, KeyOr, KeyNot]

  function ParseKeyword(candidates: seq<Keyword>, s: string): (r: Parsed<Keyword>)
    ensures r.Accept? ==> |r.rest| < |s|
  {
    if candidates == [] then Reject
    else if KeywordText(candidates[0]) <= s then Accept(candidates[0], s[|KeywordText(candidates[0])|..])
    else ParseKeyword(candidates[1..], s)
  }

  predicate IsComparison(k: Keyword) {
    !k.KeyExists? && !k.KeyIn? && !k.KeyAnd? && !k.KeyOr? && !k.KeyNot?
  }

  function Compare(k: Keyword, path: FieldPath, v: Metadata): Predicate
    requires IsComparison(k)
  {
    match k
    case KeyEq => Eq(path, v)
    case KeyNe => Ne(path, v)
    case KeyLt => Lt(path, v)
    case KeyLte => Lte(path, v)
    case KeyGt => Gt(path, v)
    case KeyGte => Gte(path, v)
    case KeyContains => Contains(path, v)
  }

  // The part of a comparison after its opening bracket.
  function ParseComparison(k: Keyword, s: string): (r: Parsed<Predicate>)
    requires IsComparison(k)
    ensures r.Accept? ==> |r.rest| < |s|
  {
    var path := ParsePath(':', s);
    if path.Reject? || !ValidPath(path.value) then Reject
    else
      var v := ParseMetadata(path.rest);
      if v.Reject? || v.rest == "" || v.rest[0] != ']' then Reject
      else Accept(Compare(k, path.value, v.value), v.rest[1..])
  }

  function ParsePredicate(s: string): (r: Parsed<Predicate>)
    ensures r.Accept? ==> |r.rest| < |s|
    decreases |s|, 0
  {
    var key := ParseKeyword(KEYWORDS, s);
    if key.Reject? then Reject else ParseBody(key.value, key.rest)
  }

  function ParseBody(k: Keyword, s: string): (r: Parsed<Predicate>)
    ensures r.Accept? ==> |r.rest| < |s|
    decreases |s|, 2
  {
    match k
    case KeyExists =>
      var path := ParsePath(']', s);
      if path.Accept? && ValidPath(path.value) then Accept(Exists(path.value), path.rest) else Reject
    case KeyIn =>
      var path := ParsePath(':', s);
      if path.Reject? || !ValidPath(path.value) then Reject
      else
        var items := ParseItems(path.rest);
        if items.Accept? then Accept(In(path.value, items.value), items.rest) else Reject
    case KeyAnd =>
      var operands := ParseOperands(s);
      if operands.Accept? then Accept(And(operands.value), operands.rest) else Reject
    case KeyOr =>
      var operands := ParseOperands(s);
      if operands.Accept? then Accept(Or(operands.value), operands.rest) else Reject
    case KeyNot =>
      var operand := ParsePredicate(s);
      if operand.Reject? || operand.rest == "" || operand.rest[0] != ')' then Reject
      else Accept(Not(operand.value), operand.rest[1..])
    case _ => ParseComparison(k, s)
  }

  // Predicates each followed by a semicolon, up to and including the closing parenthesis.
  function ParseOperands(s: string): (r: Parsed<seq<Predicate>>)
    ensures r.Accept? ==> |r.rest| < |s|
    decreases |s|, 1
  {
    if s == "" then Reject
    else if s[0] == ')' then Accept([], s[1..])
    else
      var p := ParsePredicate(s);
      if p.Reject? || p.rest == "" || p.rest[0] != ';' then Reject
      else
        var more := ParseOperands(p.rest[1..]);
        if more.Accept? then Accept([p.value] + more.value, more.rest) else Reject
  }

  // ---------------------------------------------------------------- round trips

  lemma ParseHexText(n: nat, width: nat, rest: string)
    requires n < Pow16(width)
    ensures ParseHex(width, Hex(n, width) + rest) == Accept(n, rest)
  {
    HexRoundTrip(n, width);
    var s := Hex(n, width) + rest;
    assert s[..width] == Hex(n, width) && s[width..] == rest;
  }

  lemma Pow16Of16()
    ensures Pow16(8) == 0x1_0000_0000 && Pow16(16) == TWO_TO_64
  {
    assert Pow16(4) == 0x1_0000;
    assert Pow16(8) == 0x1_0000_0000;
    assert Pow16(12) == 0x1_0000_0000_0000;
  }

  lemma {:induction false} ParseMetadataText(v: Metadata, rest: string)
    ensures ParseMetadata(MetadataText(v) + rest) == Accept(v, rest)
    decreases v, 1
  {
    match v
    case Null => assert ("n" + rest)[1..] == rest;
    case Bool(flag) => assert ((if flag then "t" else "f") + rest)[1..] == rest;
    case Number(bits) => ParseNumberText(bits, rest);
    case Str(text) => ParseStrText(text, rest);
    case Array(items) =>
      ParseItemsText(items, rest);
      ParseArrayText(items, rest);
    case Object(fields) =>
      ParseFieldsText(fields, rest);
      ParseObjectText(fields, rest);
  }

  lemma ParseStrText(text: string, rest: string)
    ensures ParseMetadata("s" + StringText(text) + rest) == Accept(Str(text), rest)
  {
    ParseStringText(text, rest);
    assert ("s" + StringText(text) + rest)[1..] == StringText(text) + rest;
  }

  lemma ParseArrayText(items: seq<Metadata>, rest: string)
    requires ParseItems(ItemsText(items) + "]" + rest) == Accept(items, rest)
    ensures ParseMetadata("[" + ItemsText(items) + "]" + rest) == Accept(Array(items), rest)
  {
    DropToken("[", ItemsText(items), "]", rest);
  }

  lemma ParseObjectText(fields: seq<Field>, rest: string)
    requires ParseFields(FieldsText(fields) + "}" + rest) == Accept(fields, rest)
    ensures ParseMetadata("{" + FieldsText(fields) + "}" + rest) == Accept(Object(fields), rest)
  {
    DropToken("{", FieldsText(fields), "}", rest);
  }

  lemma ParseNumberText(bits: Bits64, rest: string)
    ensures ParseMetadata("d" + Hex(bits, 16) + rest) == Accept(Number(bits), rest)
  {
    Pow16Of16();
    ParseHexText(bits, 16, rest);
    assert ("d" + Hex(bits, 16) + rest)[1..] == Hex(bits, 16) + rest;
  }

  lemma {:induction false} ParseItemsText(items: seq<Metadata>, rest: string)
    ensures ParseItems(ItemsText(items) + "]" + rest) == Accept(items, rest)
    decreases items, 0
  {
    var s := ItemsText(items) + "]" + rest;
    if items == [] {
      assert s == "]" + rest;
    } else {
      var more := ItemsText(items[1..]) + "]" + rest;
      assert s == MetadataText(items[0]) + ("," + more);
      ParseMetadataText(items[0], "," + more);
      ParseItemsText(items[1..], rest);
      assert ("," + more)[1..] == more;
      assert items == [items[0]] + items[1..];
    }
  }

  lemma ParseFieldsStep(s: string, f: Field, more: string, fields: seq<Field>, rest: string)
    requires s != "" && s[0] != '}' && ParseField(s) == Accept(f, more)
    requires ParseFields(more) == Accept(fields, rest)
    ensures ParseFields(s) == Accept([f] + fields, rest)
  {
  }

  lemma {:induction false} ParseFieldsText(fields: seq<Field>, rest: string)
    ensures ParseFields(FieldsText(fields) + "}" + rest) == Accept(fields, rest)
    decreases fields, 0
  {
    var s := FieldsText(fields) + "}" + rest;
    if fields == [] {
      assert s == "}" + rest;
    } else {
      var more := FieldsText(fields[1..]) + "}" + rest;
      assert s == FieldText(fields[0]) + more;
      assert s[0] == StringText(fields[0].key)[0];
      ParseFieldText(fields[0], more);
      ParseFieldsText(fields[1..], rest);
      ParseFieldsStep(s, fields[0], more, fields[1..], rest);
      assert fields == [fields[0]] + fields[1..];
    }
  }

  lemma {:induction false} ParseFieldText(f: Field, rest: string)
    ensures ParseField(FieldText(f) + rest) == Accept(f, rest)
    decreases f, 2
  {
    var value := MetadataText(f.value) + ("," + rest);
    RegroupField(StringText(f.key), MetadataText(f.value), rest);
    ParseStringText(f.key, ":" + value);
    ParseMetadataText(f.value, "," + rest);
    ParseFieldStep(f, FieldText(f) + rest, ":" + value, value, "," + rest, rest);
  }

  lemma RegroupField(key: string, value: string, rest: string)
    ensures key + ":" + value + "," + rest == key + (":" + (value + ("," + rest)))
  {
  }

  lemma ParseFieldStep(f: Field, s: string, t: string, value: string, u: string, rest: string)
    requires ParseString(s) == Accept(f.key, t) && t == ":" + value
    requires ParseMetadata(value) == Accept(f.value, u) && u == "," + rest
    ensures ParseField(s) == Accept(f, rest)
  {
    DropDelimiter(':', value);
    DropDelimiter(',', rest);
  }

  lemma ParsePathStep(stop: char, s: string, segment: string, t: string, more: string, segments: seq<string>,
                      rest: string)
    requires s != "" && s[0] != stop && ParseString(s) == Accept(segment, t) && t == "/" + more
    requires ParsePath(stop, more) == Accept(segments, rest)
    ensures ParsePath(stop, s) == Accept([segment] + segments, rest)
  {
    DropDelimiter('/', more);
  }

  lemma {:induction false} ParsePathText(segments: seq<string>, stop: char, rest: string)
    requires !IsDigit(stop)
    ensures ParsePath(stop, PathText(segments) + [stop] + rest) == Accept(segments, rest)
  {
    var s := PathText(segments) + [stop] + rest;
    if segments == [] {
      assert s == [stop] + rest;
    } else {
      var more := PathText(segments[1..]) + [stop] + rest;
      assert s == StringText(segments[0]) + ("/" + more);
      ParseStringText(segments[0], "/" + more);
      ParsePathText(segments[1..], stop, rest);
      assert s[0] == StringText(segments[0])[0];
      ParsePathStep(stop, s, segments[0], "/" + more, more, segments[1..], rest);
      assert segments == [segments[0]] + segments[1..];
    }
  }

  // No keyword with its bracket begins another keyword's text, `lt[` and `lte[` included.
  lemma KeywordsArePrefixFree(j: Keyword, k: Keyword, rest: string)
    requires KeywordText(j) <= KeywordText(k) + rest
    ensures j == k
  {
    var a, b := KeywordText(j), KeywordText(k);
    assert a[0] == b[0] && a[1] == b[1] && a[2] == b[2];
  }

  lemma {:induction false} ParseKeywordText(candidates: seq<Keyword>, k: Keyword, rest: string)
    requires k in candidates
    ensures ParseKeyword(candidates, KeywordText(k) + rest) == Accept(k, rest)
  {
    var s := KeywordText(k) + rest;
    if KeywordText(candidates[0]) <= s {
      KeywordsArePrefixFree(candidates[0], k, rest);
      assert s[|KeywordText(k)|..] == rest;
    } else {
      ParseKeywordText(candidates[1..], k, rest);
    }
  }

  lemma ParseComparisonText(k: Keyword, path: FieldPath, v: Metadata, rest: string)
    requires IsComparison(k)
    ensures ParseComparison(k, ComparisonText(path, v) + rest) == Accept(Compare(k, path, v), rest)
  {
    var value := MetadataText(v) + ("]" + rest);
    assert ComparisonText(path, v) + rest == PathText(path) + [':'] + value;
    ParsePathText(path, ':', value);
    ParseMetadataText(v, "]" + rest);
    assert ("]" + rest)[1..] == rest;
  }

  lemma {:induction false} ParsePredicateText(p: Predicate, rest: string)
    ensures ParsePredicate(PredicateText(p) + rest) == Accept(p, rest)
    decreases p, 2
  {
    var k, body := KeywordOf(p), BodyText(p) + rest;
    assert PredicateText(p) + rest == KeywordText(k) + body;
    ParseKeywordText(KEYWORDS, k, body);
    ParseBodyText(p, rest);
  }

  lemma {:induction false} ParseBodyText(p: Predicate, rest: string)
    ensures ParseBody(KeywordOf(p), BodyText(p) + rest) == Accept(p, rest)
    decreases p, 1
  {
    match p
    case Exists(path) => ParseExistsText(path, rest);
    case In(path, candidates) => ParseInText(path, candidates, rest);
    case And(operands) =>
      ParseOperandsText(operands, rest);
      ParseListText(operands, BodyText(p) + rest, rest);
    case Or(operands) =>
      ParseOperandsText(operands, rest);
      ParseListText(operands, BodyText(p) + rest, rest);
    case Not(operand) =>
      ParsePredicateText(operand, ")" + rest);
      RegroupNot(PredicateText(operand), rest);
      ParseNotText(BodyText(p) + rest, operand, ")" + rest, rest);
    case _ => ParseComparisonBody(p, rest);
  }

  lemma ParseListText(operands: seq<Predicate>, s: string, rest: string)
    requires ParseOperands(s) == Accept(operands, rest)
    ensures ParseBody(KeyAnd, s) == Accept(And(operands), rest)
    ensures ParseBody(KeyOr, s) == Accept(Or(operands), rest)
  {
  }

  lemma ParseComparisonBody(p: Predicate, rest: string)
    requires IsComparison(KeywordOf(p))
    ensures ParseBody(KeywordOf(p), BodyText(p) + rest) == Accept(p, rest)
  {
    var k, path, expected := BodyOfComparison(p);
    ParseComparisonText(k, path, expected, rest);
    BodyIsComparison(k, ComparisonText(path, expected) + rest);
  }

  lemma BodyOfComparison(p: Predicate) returns (k: Keyword, path: FieldPath, expected: Metadata)
    requires IsComparison(KeywordOf(p))
    ensures k == KeywordOf(p) && Compare(k, path, expected) == p && BodyText(p) == ComparisonText(path, expected)
  {
    k, path, expected := KeywordOf(p), p.path, p.expected;
  }

  lemma BodyIsComparison(k: Keyword, s: string)
    requires IsComparison(k)
    ensures ParseBody(k, s) == ParseComparison(k, s)
  {
  }

  lemma ParseNotText(s: string, operand: Predicate, closing: string, rest: string)
    requires ParsePredicate(s) == Accept(operand, closing) && closing == ")" + rest
    ensures ParseBody(KeyNot, s) == Accept(Not(operand), rest)
  {
    DropDelimiter(')', rest);
  }

  lemma RegroupNot(text: string, rest: string)
    ensures text + ")" + rest == text + (")" + rest)
  {
  }

  lemma ParseExistsText(path: FieldPath, rest: string)
    ensures ParseBody(KeyExists, BodyText(Exists(path)) + rest) == Accept(Exists(path), rest)
  {
    assert BodyText(Exists(path)) + rest == PathText(path) + [']'] + rest;
    ParsePathText(path, ']', rest);
  }

  lemma ParseInText(path: FieldPath, candidates: seq<Metadata>, rest: string)
    ensures ParseBody(KeyIn, BodyText(In(path, candidates)) + rest) == Accept(In(path, candidates), rest)
  {
    var items := ItemsText(candidates) + "]" + rest;
    assert BodyText(In(path, candidates)) + rest == PathText(path) + [':'] + items;
    ParsePathText(path, ':', items);
    ParseItemsText(candidates, rest);
  }

  lemma ParseOperandStep(text: string, p: Predicate, ps: seq<Predicate>, more: string, rest: string)
    requires text != "" && text[0] != ')'
    requires ParsePredicate(text + (";" + more)) == Accept(p, ";" + more)
    requires ParseOperands(more) == Accept(ps, rest)
    ensures ParseOperands(text + (";" + more)) == Accept([p] + ps, rest)
  {
    DropDelimiter(';', more);
    assert (text + (";" + more))[0] == text[0];
  }

  lemma {:induction false} ParseOperandsText(operands: seq<Predicate>, rest: string)
    ensures ParseOperands(OperandsText(operands) + ")" + rest) == Accept(operands, rest)
    decreases operands, 0
  {
    if operands == [] {
      assert "" + ")" + rest == ")" + rest;
    } else {
      var text := PredicateText(operands[0]);
      var others := OperandsText(operands[1..]);
      var more := others + ")" + rest;
      ParsePredicateText(operands[0], ";" + more);
      ParseOperandsText(operands[1..], rest);
      ParseOperandStep(text, operands[0], operands[1..], more, rest);
      AfterFirst(text, ";", others, ")", rest);
      assert operands == [operands[0]] + operands[1..];
    }
  }

  // ---------------------------------------------------------------- the whole string

  function ParseMetric(s: string): (r: Parsed<DistanceMetric>) {
    if "cosine|" <= s then Accept(Cosine, s[7..])
    else if "dot|" <= s then Accept(Dot, s[4..])
    else if "l2|" <= s then Accept(L2, s[3..])
    else Reject
  }

  function ParseExecution(s: string): (r: Parsed<ExecutionPreference>) {
    if "auto|" <= s then Accept(Auto, s[5..])
    else if "exact|" <= s then Accept(Exact, s[6..])
    else if "hnsw|" <= s then Accept(Hnsw, s[5..])
    else Reject
  }

  // A string field followed by a bar.
  function ParseBarred(s: string): Parsed<string> {
    var t := ParseString(s);
    if t.Accept? && t.rest != "" && t.rest[0] == '|' then Accept(t.value, t.rest[1..]) else Reject
  }

  // Coordinates each followed by a comma, up to and including the bar.
  function ParseVector(s: string): (r: Parsed<seq<Bits32>>)
    decreases |s|
  {
    if s == "" then Reject
    else if s[0] == '|' then Accept([], s[1..])
    else
      var x := ParseHex(8, s);
      if x.Reject? || x.value >= 0x1_0000_0000 || x.rest == "" || x.rest[0] != ',' then Reject
      else
        var more := ParseVector(x.rest[1..]);
        if more.Accept? then Accept([x.value as Bits32] + more.value, more.rest) else Reject
  }

  function ParseFilter(s: string): Option<Option<Predicate>> {
    if s == "-" then Some(None)
    else
      var p := ParsePredicate(s);
      if p.Accept? && p.rest == "" then Some(Some(p.value)) else None
  }

  function ParseQuery(s: string): Option<(Option<string>, seq<Bits32>, Option<Predicate>)> {
    var profile := ParseBarred(s);
    if profile.Reject? then None
    else
      var vector := ParseVector(profile.rest);
      if vector.Reject? then None
      else
        var filter := ParseFilter(vector.rest);
        if filter.None? then None else Some((Some(profile.value), vector.value, filter.value))
  }

  function ParseCanonical(s: string): Option<Binding> {
    if !(PREFIX <= s) then None
    else
      var collection := ParseBarred(s[|PREFIX|..]);
      if collection.Reject? then None
      else
        var metric := ParseMetric(collection.rest);
        if metric.Reject? then None
        else
          var execution := ParseExecution(metric.rest);
          if execution.Reject? then None
          else
            var query := ParseQuery(execution.rest);
            if query.None? then None
            else Some(Binding(collection.value, query.value.1, query.value.2, execution.value,
                              query.value.0, metric.value))
  }

  // Two bindings ask for the same thing: an absent profile and the default one are the same.
  ghost predicate AsksTheSame(a: Binding, b: Binding) {
    && a.collection == b.collection && a.vector == b.vector && a.filter == b.filter
    && a.execution == b.execution && a.metric == b.metric
    && (a.profile == b.profile || {a.profile, b.profile} == {None, Some("default@1")})
  }

  lemma ParseBarredText(v: string, rest: string)
    ensures ParseBarred(StringText(v) + ("|" + rest)) == Accept(v, rest)
  {
    ParseStringText(v, "|" + rest);
    assert ("|" + rest)[1..] == rest;
  }

  lemma ParseMetricText(m: DistanceMetric, rest: string)
    ensures ParseMetric(MetricText(m) + ("|" + rest)) == Accept(m, rest)
  {
    var s := MetricText(m) + ("|" + rest);
    assert s[0] == MetricText(m)[0];
    assert s[|MetricText(m)| + 1..] == rest;
    match m
    case Cosine => assert s == "cosine|" + rest;
    case Dot => assert s == "dot|" + rest;
    case L2 => assert s == "l2|" + rest;
  }

  lemma ParseExecutionText(e: ExecutionPreference, rest: string)
    ensures ParseExecution(ExecutionText(e) + ("|" + rest)) == Accept(e, rest)
  {
    var s := ExecutionText(e) + ("|" + rest);
    assert s[0] == ExecutionText(e)[0];
    assert s[|ExecutionText(e)| + 1..] == rest;
    match e
    case Auto => assert s == "auto|" + rest;
    case Exact => assert s == "exact|" + rest;
    case Hnsw => assert s == "hnsw|" + rest;
  }

  lemma ParseCoordinateText(x: Bits32, rest: string)
    ensures ParseHex(8, Hex(x, 8) + rest) == Accept(x, rest)
    ensures (Hex(x, 8) + rest)[0] != '|'
  {
    Pow16Of16();
    ParseHexText(x, 8, rest);
    assert (Hex(x, 8) + rest)[0] == Hex(x, 8)[0];
  }

  lemma ParseVectorStep(s: string, x: Bits32, t: string, more: string, xs: seq<Bits32>, rest: string)
    requires s != "" && s[0] != '|' && ParseHex(8, s) == Accept(x, t) && t == "," + more
    requires ParseVector(more) == Accept(xs, rest)
    ensures ParseVector(s) == Accept([x] + xs, rest)
  {
    DropDelimiter(',', more);
  }

  lemma {:induction false} ParseVectorText(vector: seq<Bits32>, rest: string)
    ensures ParseVector(VectorText(vector) + ("|" + rest)) == Accept(vector, rest)
  {
    var s := VectorText(vector) + ("|" + rest);
    if vector == [] {
      assert s == "|" + rest;
    } else {
      var more := VectorText(vector[1..]) + ("|" + rest);
      assert s == Hex(vector[0], 8) + ("," + more);
      ParseCoordinateText(vector[0], "," + more);
      ParseVectorText(vector[1..], rest);
      ParseVectorStep(s, vector[0], "," + more, more, vector[1..], rest);
      assert vector == [vector[0]] + vector[1..];
    }
  }

  lemma ParseFilterText(filter: Option<Predicate>)
    ensures ParseFilter(FilterText(filter)) == Some(filter)
  {
    match filter
    case None =>
    case Some(p) =>
      ParsePredicateText(p, "");
      assert PredicateText(p) + "" == PredicateText(p);
  }

  function QueryText(b: Binding): string {
    StringText(ProfileName(b.profile)) + ("|" + (VectorText(b.vector) + ("|" + FilterText(b.filter))))
  }

  lemma ParseQueryText(b: Binding)
    ensures ParseQuery(QueryText(b)) == Some((Some(ProfileName(b.profile)), b.vector, b.filter))
  {
    var t1 := FilterText(b.filter);
    var t0 := VectorText(b.vector) + ("|" + t1);
    ParseBarredText(ProfileName(b.profile), t0);
    ParseVectorText(b.vector, t1);
    ParseFilterText(b.filter);
  }

  lemma SplitCanonicalText(b: Binding, t1: string, t0: string)
    requires t1 == ExecutionText(b.execution) + ("|" + QueryText(b))
    requires t0 == MetricText(b.metric) + ("|" + t1)
    ensures CanonicalText(b) == PREFIX + (StringText(b.collection) + ("|" + t0))
  {
    var head := PREFIX + StringText(b.collection) + "|";
    var metric := head + MetricText(b.metric) + "|";
    var execution := metric + ExecutionText(b.execution) + "|";
    var profile := execution + StringText(ProfileName(b.profile)) + "|";
    RegroupTail(profile, VectorText(b.vector), "|", FilterText(b.filter));
    RegroupTail(execution, StringText(ProfileName(b.profile)), "|",
                VectorText(b.vector) + ("|" + FilterText(b.filter)));
    RegroupTail(metric, ExecutionText(b.execution), "|", QueryText(b));
    RegroupTail(head, MetricText(b.metric), "|", t1);
    RegroupTail(PREFIX, StringText(b.collection), "|", t0);
  }

  // Decoding the canonical string gives back the binding, with the default for an absent profile.
  lemma ParseCanonicalText(b: Binding)
    ensures ParseCanonical(CanonicalText(b)) ==
            Some(Binding(b.collection, b.vector, b.filter, b.execution,
                         if b.profile == None then Some("default@1") else b.profile, b.metric))
    ensures "cursor-query-v1|" <= CanonicalText(b)
  {
    var t1 := ExecutionText(b.execution) + ("|" + QueryText(b));
    var t0 := MetricText(b.metric) + ("|" + t1);
    SplitCanonicalText(b, t1, t0);
    assert CanonicalText(b)[|PREFIX|..] == StringText(b.collection) + ("|" + t0);
    ParseBarredText(b.collection, t0);
    ParseMetricText(b.metric, t1);
    ParseExecutionText(b.execution, QueryText(b));
    ParseQueryText(b);
  }

  // Two queries have the same canonical string exactly when they ask for the same thing.
  lemma CanonicalTextIsInjective(a: Binding, b: Binding)
    ensures CanonicalText(a) == CanonicalText(b) <==> AsksTheSame(a, b)
  {
    ParseCanonicalText(a);
    ParseCanonicalText(b);
    SameProfileIff(a.profile, b.profile);
    if AsksTheSame(a, b) && a.profile != b.profile {
      SameText(a, b);
    }
  }

  lemma SameProfileIff(p: Option<string>, q: Option<string>)
    ensures (if p == None then Some("default@1") else p) == (if q == None then Some("default@1") else q)
            <==> p == q || {p, q} == {None, Some("default@1")}
    ensures {p, q} == {None, Some("default@1")} ==>
              p in {None, Some("default@1")} && q in {None, Some("default@1")}
  {
    assert p in {p, q} && q in {p, q};
    if (p == None && q == Some("default@1")) || (q == None && p == Some("default@1")) {
      assert {p, q} == {None, Some("default@1")};
    }
  }

  // An absent profile is written as the default one.
  lemma SameText(a: Binding, b: Binding)
    requires a.collection == b.collection && a.vector == b.vector && a.filter == b.filter
    requires a.execution == b.execution && a.metric == b.metric
    requires a.profile in {None, Some("default@1")} && b.profile in {None, Some("default@1")}
    ensures CanonicalText(a) == CanonicalText(b)
  {
  }

  // ---------------------------------------------------------------- accepting a cursor

  const CURSOR_VERSION: nat := 1
  const CURSOR_MAX_AGE_MS: nat := 15 * 60 * 1000
  const CLOCK_SKEW_MS: nat := 60_000
  const MAX_U64: nat := TWO_TO_64 - 1

  datatype Payload = Payload(
    version: nat,
    collection: string,
    queryHash: string,
    snapshotSequence: nat,
    issuedAt: Bits64)

  datatype CursorError = UnsupportedVersion | IssuedInTheFuture | Expired | StaleSnapshot | QueryMismatch

  // The part of a cursor that `encode_cursor` fixes.
  function Issue(digest: string -> string, b: Binding, snapshot: nat, now: Bits64): Payload {
    Payload(CURSOR_VERSION, b.collection, digest(CanonicalText(b)), snapshot, now)
  }

  // The checks of `decode_cursor` after the token has been unpacked; u64 arithmetic saturates.
  function CheckAge(p: Payload, now: Bits64): Result<(), CursorError> {
    if p.version != CURSOR_VERSION then Err(UnsupportedVersion)
    else if p.issuedAt > (if now + CLOCK_SKEW_MS > MAX_U64 then MAX_U64 else now + CLOCK_SKEW_MS)
    then Err(IssuedInTheFuture)
    else if (if now >= p.issuedAt then now - p.issuedAt else 0) > CURSOR_MAX_AGE_MS then Err(Expired)
    else Ok(())
  }

  function ValidateCursor(p: Payload, collection: string, queryHash: string, snapshot: nat): Result<(), CursorError> {
    if p.collection != collection || p.queryHash != queryHash then Err(QueryMismatch)
    else if p.snapshotSequence != snapshot then Err(StaleSnapshot)
    else Ok(())
  }

  function Continue(digest: string -> string, p: Payload, b: Binding, snapshot: nat, now: Bits64)
    : Result<(), CursorError>
  {
    match CheckAge(p, now)
    case Err(e) => Err(e)
    case Ok(_) => ValidateCursor(p, b.collection, digest(CanonicalText(b)), snapshot)
  }

  // A cursor issued for one query continues another exactly when both ask for the same thing on the
  // same snapshot and the cursor is at most a quarter of an hour old and at most a minute from the
  // future; and which error is returned otherwise. The digest is only assumed not to collide on these
  // two canonical strings.
  lemma CursorContinuesOnlyItsQuery(digest: string -> string, a: Binding, b: Binding,
                                    issuedSnapshot: nat, snapshot: nat, issuedAt: Bits64, now: Bits64)
    requires digest(CanonicalText(a)) == digest(CanonicalText(b)) ==> CanonicalText(a) == CanonicalText(b)
    ensures Continue(digest, Issue(digest, a, issuedSnapshot, issuedAt), b, snapshot, now)
            == if issuedAt > now + 60_000 then Err(IssuedInTheFuture)
               else if now > issuedAt + 900_000 then Err(Expired)
               else if !AsksTheSame(a, b) then Err(QueryMismatch)
               else if issuedSnapshot != snapshot then Err(StaleSnapshot)
               else Ok(())
  {
    CanonicalTextIsInjective(a, b);
  }

  // A cursor of another version continues nothing, and one of this version never fails for that.
  lemma OnlyThisVersion(digest: string -> string, p: Payload, b: Binding, snapshot: nat, now: Bits64)
    ensures Continue(digest, p, b, snapshot, now) == Err(UnsupportedVersion) <==> p.version != 1
  {
  }
}
