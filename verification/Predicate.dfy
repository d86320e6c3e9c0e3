/** Record metadata and the filter language over it
    (crates/ketebe-core/src/metadata.rs and crates/ketebe-core/src/predicate.rs). */
module Predicates {
  import opened Wrappers
  import opened Text

  const TWO_TO_63: nat := 0x8000_0000_0000_0000
  const TWO_TO_64: nat := 0x1_0000_0000_0000_0000
  const INFINITY_BITS: nat := 0x7ff0_0000_0000_0000

  // The bit pattern of an `f64`.
  type Bits64 = n: nat | n < TWO_TO_64

  // An object is a map sorted by key; it is held as the sequence of its entries in key order.
  datatype Metadata =
    | Null
    | Bool(flag: bool)
    | Number(bits: Bits64)
    | Str(text: string)
    | Array(items: seq<Metadata>)
    | Object(fields: seq<Field>)

  datatype Field = Field(key: string, value: Metadata)

  // `FieldPath::new` rejects a path without segments and a path with an empty segment.
  predicate ValidPath(segments: seq<string>) {
    |segments| > 0 && "" !in segments
  }

  type FieldPath = p: seq<string> | ValidPath(p) witness ["f"]

  datatype Predicate =
    | Eq(path: FieldPath, expected: Metadata)
    | Ne(path: FieldPath, expected: Metadata)
    | Lt(path: FieldPath, expected: Metadata)
    | Lte(path: FieldPath, expected: Metadata)
    | Gt(path: FieldPath, expected: Metadata)
    | Gte(path: FieldPath, expected: Metadata)
    | Exists(path: FieldPath)
    | In(path: FieldPath, candidates: seq<Metadata>)
    | Contains(path: FieldPath, expected: Metadata)
    | And(operands: seq<Predicate>)
    | Or(operands: seq<Predicate>)
    | Not(operand: Predicate)

  // ---------------------------------------------------------------- comparing values

  datatype Ordering = Less | Equal | Greater

  datatype Kind = NullKind | BoolKind | NumberKind | StringKind | ArrayKind | ObjectKind

  datatype PredicateError = InvalidOrderingComparison(actual: Kind, expected: Kind)

  type Evaluation = Result<bool, PredicateError>

  predicate IsNaN(bits: Bits64) {
    bits % TWO_TO_63 > INFINITY_BITS
  }

  // Orders the patterns of all numbers other than NaN as IEEE 754 does; both zeros map to 0.
  function NumberKey(bits: Bits64): int {
    if bits < TWO_TO_63 then bits else TWO_TO_63 - bits
  }

  function CompareNumbers(a: Bits64, b: Bits64): Option<Ordering> {
    if IsNaN(a) || IsNaN(b) then None
    else if NumberKey(a) < NumberKey(b) then Some(Less)
    else if NumberKey(a) == NumberKey(b) then Some(Equal)
    else Some(Greater)
  }

  function CompareStrings(a: string, b: string): Ordering {
    if a == "" then if b == "" then Equal else Less
    else if b == "" then Greater
    else if a[0] < b[0] then Less
    else if b[0] < a[0] then Greater
    else CompareStrings(a[1..], b[1..])
  }

  // The equality of values: NaN differs from itself and the two zeros are equal.
  predicate Same(a: Metadata, b: Metadata)
    decreases a, 1
  {
    match (a, b)
    case (Null, Null) => true
    case (Bool(x), Bool(y)) => x == y
    case (Number(x), Number(y)) => CompareNumbers(x, y) == Some(Equal)
    case (Str(x), Str(y)) => x == y
    case (Array(xs), Array(ys)) => SameItems(xs, ys)
    case (Object(xs), Object(ys)) => SameFields(xs, ys)
    case _ => false
  }

  predicate SameItems(xs: seq<Metadata>, ys: seq<Metadata>)
    decreases xs, 0
  {
    if xs == [] || ys == [] then xs == ys else Same(xs[0], ys[0]) && SameItems(xs[1..], ys[1..])
  }

  predicate SameFields(xs: seq<Field>, ys: seq<Field>)
    decreases xs, 0
  {
    if xs == [] || ys == [] then xs == ys
    else xs[0].key == ys[0].key && Same(xs[0].value, ys[0].value) && SameFields(xs[1..], ys[1..])
  }

  function KindOf(v: Metadata): Kind {
    match v
    case Null => NullKind
    case Bool(_) => BoolKind
    case Number(_) => NumberKind
    case Str(_) => StringKind
    case Array(_) => ArrayKind
    case Object(_) => ObjectKind
  }

  function ComparableOrder(actual: Metadata, expected: Metadata): Result<Ordering, PredicateError> {
    match (actual, expected)
    case (Number(x), Number(y)) =>
      (match CompareNumbers(x, y)
       case Some(order) => Ok(order)
       case None => Err(InvalidOrderingComparison(NumberKind, NumberKind)))
    case (Str(x), Str(y)) => Ok(CompareStrings(x, y))
    case _ => Err(InvalidOrderingComparison(KindOf(actual), KindOf(expected)))
  }

  // ---------------------------------------------------------------- resolving a field

  function Lookup(fields: seq<Field>, key: string): Option<Metadata> {
    if fields == [] then None
    else if fields[0].key == key then Some(fields[0].value)
    else Lookup(fields[1..], key)
  }

  function Descend(v: Metadata, segments: seq<string>): Option<Metadata>
    decreases segments
  {
    if segments == [] then Some(v)
    else if !v.Object? then None
    else
      match Lookup(v.fields, segments[0])
      case Some(inner) => Descend(inner, segments[1..])
      case None => None
  }

  function Resolve(path: FieldPath, record: seq<Field>): Option<Metadata> {
    Descend(Object(record), path)
  }

  method ResolveLoop(path: FieldPath, record: seq<Field>) returns (found: Option<Metadata>)
    ensures found == Resolve(path, record)
  {
    var first := Lookup(record, path[0]);
    if first.None? { return None; }
    var current := first.value;
    for i := 1 to |path|
      invariant Descend(current, path[i..]) == Resolve(path, record)
    {
      assert path[i..][1..] == path[i + 1..];
      if !current.Object? { return None; }
      var next := Lookup(current.fields, path[i]);
      if next.None? { return None; }
      current := next.value;
    }
    found := Some(current);
  }

  // ---------------------------------------------------------------- evaluation

  function Compare(path: FieldPath, record: seq<Field>, expected: Metadata, accepts: Ordering -> bool): Evaluation {
    match Resolve(path, record)
    case None => Ok(false)
    case Some(actual) =>
      match ComparableOrder(actual, expected)
      case Ok(order) => Ok(accepts(order))
      case Err(e) => Err(e)
  }

  function Negated(r: Evaluation): Evaluation {
    match r
    case Ok(b) => Ok(!b)
    case Err(e) => Err(e)
  }

  function Evaluate(p: Predicate, record: seq<Field>): Evaluation
    decreases p, 1
  {
    match p
    case Eq(path, expected) =>
      var found := Resolve(path, record);
      Ok(found.Some? && Same(found.value, expected))
    case Ne(path, expected) =>
      var found := Resolve(path, record);
      Ok(found.Some? && !Same(found.value, expected))
    case Lt(path, expected) => Compare(path, record, expected, (order: Ordering) => order.Less?)
    case Lte(path, expected) => Compare(path, record, expected, (order: Ordering) => !order.Greater?)
    case Gt(path, expected) => Compare(path, record, expected, (order: Ordering) => order.Greater?)
    case Gte(path, expected) => Compare(path, record, expected, (order: Ordering) => !order.Less?)
    case Exists(path) => Ok(Resolve(path, record).Some?)
    case In(path, candidates) =>
      var found := Resolve(path, record);
      Ok(found.Some? && exists i :: 0 <= i < |candidates| && Same(candidates[i], found.value))
    case Contains(path, expected) =>
      var found := Resolve(path, record);
      Ok(found.Some? && found.value.Array?
         && exists i :: 0 <= i < |found.value.items| && Same(found.value.items[i], expected))
    case And(operands) => EvaluateAll(operands, record)
    case Or(operands) => EvaluateAny(operands, record)
    case Not(operand) => Negated(Evaluate(operand, record))
  }

  // Stops at the first operand that is not true.
  function EvaluateAll(operands: seq<Predicate>, record: seq<Field>): Evaluation
    decreases operands, 0
  {
    if operands == [] then Ok(true)
    else
      var first := Evaluate(operands[0], record);
      if first == Ok(true) then EvaluateAll(operands[1..], record) else first
  }

  // Stops at the first operand that is not false.
  function EvaluateAny(operands: seq<Predicate>, record: seq<Field>): Evaluation
    decreases operands, 0
  {
    if operands == [] then Ok(false)
    else
      var first := Evaluate(operands[0], record);
      if first == Ok(false) then EvaluateAny(operands[1..], record) else first
  }

  // ---------------------------------------------------------------- what comparisons mean

  // The pattern is of no number: the exponent is all ones and the fraction is not zero.
  predicate NotANumber(bits: Bits64) {
    0x7ff0_0000_0000_0000 < bits < 0x8000_0000_0000_0000 || 0xfff0_0000_0000_0000 < bits
  }

  // Below 0x8000_0000_0000_0000 the sign is plus and larger patterns are larger numbers; from there on
  // it is minus and they are smaller ones. The first pattern of either half is a zero.
  predicate SmallerNumber(a: Bits64, b: Bits64) {
    if a < 0x8000_0000_0000_0000 then a < b < 0x8000_0000_0000_0000
    else if b < 0x8000_0000_0000_0000 then a != 0x8000_0000_0000_0000 || b != 0
    else a > b
  }

  predicate EqualNumber(a: Bits64, b: Bits64) {
    a == b || (a == 0 && b == 0x8000_0000_0000_0000) || (a == 0x8000_0000_0000_0000 && b == 0)
  }

  lemma NumbersCompare(a: Bits64, b: Bits64)
    ensures CompareNumbers(a, b) == None <==> NotANumber(a) || NotANumber(b)
    ensures CompareNumbers(a, b) != None ==>
              && (CompareNumbers(a, b) == Some(Less) <==> SmallerNumber(a, b))
              && (CompareNumbers(a, b) == Some(Equal) <==> EqualNumber(a, b))
              && (CompareNumbers(a, b) == Some(Greater) <==> SmallerNumber(b, a))
  {
  }

  lemma {:induction false} StringsCompare(a: string, b: string)
    ensures CompareStrings(a, b) == Less <==> SmallerText(a, b)
    ensures CompareStrings(a, b) == Equal <==> a == b
    ensures CompareStrings(a, b) == Greater <==> SmallerText(b, a)
  {
    if a != "" && b != "" {
      SmallerTextStep(a, b);
      SmallerTextStep(b, a);
      StringsCompare(a[1..], b[1..]);
      assert a == [a[0]] + a[1..] && b == [b[0]] + b[1..];
    }
  }

  // Values are equal if they are of one kind and equal in it; NaN equals nothing.
  lemma SameMeans(a: Metadata, b: Metadata)
    ensures Same(a, b) <==>
            || (a.Null? && b.Null?)
            || (a.Bool? && b.Bool? && a.flag == b.flag)
            || (a.Number? && b.Number? && !NotANumber(a.bits) && !NotANumber(b.bits) && EqualNumber(a.bits, b.bits))
            || (a.Str? && b.Str? && a.text == b.text)
            || (a.Array? && b.Array? && |a.items| == |b.items|
                && forall i :: 0 <= i < |a.items| ==> Same(a.items[i], b.items[i]))
            || (a.Object? && b.Object? && |a.fields| == |b.fields|
                && forall i :: 0 <= i < |a.fields| ==>
                     a.fields[i].key == b.fields[i].key && Same(a.fields[i].value, b.fields[i].value))
  {
    match (a, b) {
      case (Number(x), Number(y)) => NumbersCompare(x, y);
      case (Array(xs), Array(ys)) => SameItemsMeans(xs, ys);
      case (Object(xs), Object(ys)) => SameFieldsMeans(xs, ys);
      case _ =>
    }
  }

  lemma {:induction false} SameItemsMeans(xs: seq<Metadata>, ys: seq<Metadata>)
    ensures SameItems(xs, ys) <==> |xs| == |ys| && forall i :: 0 <= i < |xs| ==> Same(xs[i], ys[i])
  {
    if xs != [] && ys != [] {
      SameItemsMeans(xs[1..], ys[1..]);
      assert forall i :: 0 < i < |xs| && i < |ys| ==> xs[i] == xs[1..][i - 1] && ys[i] == ys[1..][i - 1];
    }
  }

  lemma {:induction false} SameFieldsMeans(xs: seq<Field>, ys: seq<Field>)
    ensures SameFields(xs, ys) <==>
            |xs| == |ys| && forall i :: 0 <= i < |xs| ==> xs[i].key == ys[i].key && Same(xs[i].value, ys[i].value)
  {
    if xs != [] && ys != [] {
      SameFieldsMeans(xs[1..], ys[1..]);
      assert forall i :: 0 < i < |xs| && i < |ys| ==> xs[i] == xs[1..][i - 1] && ys[i] == ys[1..][i - 1];
    }
  }

  // ---------------------------------------------------------------- what leaves mean

  ghost predicate IsOf(v: Metadata, kind: Kind) {
    match v
    case Null => kind == NullKind
    case Bool(_) => kind == BoolKind
    case Number(_) => kind == NumberKind
    case Str(_) => kind == StringKind
    case Array(_) => kind == ArrayKind
    case Object(_) => kind == ObjectKind
  }

  // Two values can be ordered if both are numbers other than NaN or both are strings.
  predicate Orderable(v: Metadata, w: Metadata) {
    (v.Number? && w.Number? && !NotANumber(v.bits) && !NotANumber(w.bits)) || (v.Str? && w.Str?)
  }

  predicate Smaller(v: Metadata, w: Metadata) {
    if v.Number? && w.Number? then SmallerNumber(v.bits, w.bits)
    else v.Str? && w.Str? && SmallerText(v.text, w.text)
  }

  // An ordering leaf is false on a field that is not there and fails on values that cannot be ordered.
  lemma OrderingLeaves(path: FieldPath, expected: Metadata, record: seq<Field>)
    ensures var found := Resolve(path, record);
            var lt, lte := Evaluate(Lt(path, expected), record), Evaluate(Lte(path, expected), record);
            var gt, gte := Evaluate(Gt(path, expected), record), Evaluate(Gte(path, expected), record);
            && (found.None? ==> lt == lte == gt == gte == Ok(false))
            && (found.Some? && Orderable(found.value, expected) ==>
                  && lt == Ok(Smaller(found.value, expected)) && gt == Ok(Smaller(expected, found.value))
                  && lte == Ok(lt.value || Evaluate(Eq(path, expected), record).value)
                  && gte == Ok(gt.value || Evaluate(Eq(path, expected), record).value))
            && (found.Some? && !Orderable(found.value, expected) ==>
                  lt == lte == gt == gte && lt.Err? && IsOf(found.value, lt.error.actual)
                  && IsOf(expected, lt.error.expected))
  {
    match Resolve(path, record)
    case None =>
    case Some(actual) =>
      match (actual, expected) {
        case (Number(x), Number(y)) =>
          NumbersCompare(x, y);
        case (Str(x), Str(y)) =>
          StringsCompare(x, y);
        case _ =>
      }
  }

  // The other leaves never fail and are false on a field that is not there.
  lemma OtherLeaves(path: FieldPath, expected: Metadata, candidates: seq<Metadata>, record: seq<Field>)
    ensures Evaluate(Exists(path), record) == Ok(Resolve(path, record).Some?)
    ensures Resolve(path, record).None? ==>
              Evaluate(Eq(path, expected), record) == Evaluate(Ne(path, expected), record)
              == Evaluate(In(path, candidates), record) == Evaluate(Contains(path, expected), record) == Ok(false)
    ensures Resolve(path, record).Some? ==>
              var v := Resolve(path, record).value;
              && Evaluate(Eq(path, expected), record) == Ok(Same(v, expected))
              && Evaluate(Ne(path, expected), record) == Ok(!Same(v, expected))
              && (Evaluate(In(path, candidates), record) == Ok(true)
                  <==> exists c :: c in candidates && Evaluate(Eq(path, c), record) == Ok(true))
              && Evaluate(In(path, candidates), record).Ok?
              && Evaluate(Contains(path, expected), record)
                 == Ok(v.Array? && exists x :: x in v.items && Same(x, expected))
  {
    if Resolve(path, record).Some? {
      var v := Resolve(path, record).value;
      forall i | 0 <= i < |candidates|
        ensures Same(candidates[i], v) <==> Evaluate(Eq(path, candidates[i]), record) == Ok(true)
      {
        SameIsSymmetric(candidates[i], v);
      }
      if v.Array? {
        assert forall i :: 0 <= i < |v.items| ==> v.items[i] in v.items;
      }
    }
  }

  lemma {:induction false} SameIsSymmetric(a: Metadata, b: Metadata)
    ensures Same(a, b) <==> Same(b, a)
    decreases a
  {
    SameMeans(a, b);
    SameMeans(b, a);
    if a.Array? && b.Array? && |a.items| == |b.items| {
      forall i | 0 <= i < |a.items|
        ensures Same(a.items[i], b.items[i]) <==> Same(b.items[i], a.items[i])
      {
        SameIsSymmetric(a.items[i], b.items[i]);
      }
    } else if a.Object? && b.Object? && |a.fields| == |b.fields| {
      forall i | 0 <= i < |a.fields|
        ensures Same(a.fields[i].value, b.fields[i].value) <==> Same(b.fields[i].value, a.fields[i].value)
      {
        SameIsSymmetric(a.fields[i].value, b.fields[i].value);
      }
    }
  }

  // ---------------------------------------------------------------- where a path leads

  // Objects are maps: no object inside the value has a key twice.
  predicate KeysDistinct(v: Metadata) {
    v.Object? ==>
      && (forall i, j :: 0 <= i < j < |v.fields| ==> v.fields[i].key != v.fields[j].key)
      && forall i :: 0 <= i < |v.fields| ==> KeysDistinct(v.fields[i].value)
  }

  // From value to value, each the field of an object before it.
  ghost predicate Leads(chain: seq<Metadata>, segments: seq<string>) {
    && |chain| == |segments| + 1
    && forall i :: 0 <= i < |segments| ==> chain[i].Object? && Field(segments[i], chain[i + 1]) in chain[i].fields
  }

  lemma {:induction false} LookupIs(fields: seq<Field>, key: string, w: Metadata)
    requires forall i, j :: 0 <= i < j < |fields| ==> fields[i].key != fields[j].key
    ensures Lookup(fields, key) == Some(w) <==> Field(key, w) in fields
  {
    if fields != [] {
      LookupIs(fields[1..], key, w);
      assert fields == [fields[0]] + fields[1..];
    }
  }

  // A path finds a value exactly if the objects lead there field by field.
  lemma {:induction false} DescendIs(v: Metadata, segments: seq<string>, w: Metadata)
    requires KeysDistinct(v)
    ensures Descend(v, segments) == Some(w) <==>
            exists chain :: Leads(chain, segments) && chain[0] == v && chain[|segments|] == w
    decreases segments
  {
    if segments == [] {
      if v == w {
        assert Leads([v], segments);
      }
    } else if v.Object? {
      if Descend(v, segments) == Some(w) {
        var inner := Lookup(v.fields, segments[0]).value;
        LookupIs(v.fields, segments[0], inner);
        InnerKeysDistinct(v, Field(segments[0], inner));
        DescendIs(inner, segments[1..], w);
        var chain :| Leads(chain, segments[1..]) && chain[0] == inner && chain[|segments[1..]|] == w;
        LeadsFrom(v, chain, segments);
        assert ([v] + chain)[|segments|] == w;
      }
      if chain :| Leads(chain, segments) && chain[0] == v && chain[|segments|] == w {
        var inner := chain[1];
        LookupIs(v.fields, segments[0], inner);
        InnerKeysDistinct(v, Field(segments[0], inner));
        LeadsOn(chain, segments);
        assert chain[1..][|segments[1..]|] == w;
        DescendIs(inner, segments[1..], w);
      }
    }
  }

  lemma InnerKeysDistinct(v: Metadata, f: Field)
    requires KeysDistinct(v) && v.Object? && f in v.fields
    ensures KeysDistinct(f.value)
  {
  }

  lemma LeadsFrom(v: Metadata, chain: seq<Metadata>, segments: seq<string>)
    requires segments != [] && Leads(chain, segments[1..])
    requires v.Object? && Field(segments[0], chain[0]) in v.fields
    ensures Leads([v] + chain, segments)
  {
    var longer := [v] + chain;
    forall i | 0 <= i < |segments|
      ensures longer[i].Object? && Field(segments[i], longer[i + 1]) in longer[i].fields
    {
      if i > 0 {
        assert segments[1..][i - 1] == segments[i];
      }
    }
  }

  lemma LeadsOn(chain: seq<Metadata>, segments: seq<string>)
    requires segments != [] && Leads(chain, segments)
    ensures Leads(chain[1..], segments[1..])
  {
    var rest := chain[1..];
    forall i | 0 <= i < |segments| - 1
      ensures rest[i].Object? && Field(segments[1..][i], rest[i + 1]) in rest[i].fields
    {
      assert rest[i] == chain[i + 1] && rest[i + 1] == chain[i + 2] && segments[1..][i] == segments[i + 1];
    }
  }

  // ---------------------------------------------------------------- what connectives mean

  // A conjunction is true if all operands are, and else what the first other one is; a disjunction is
  // false if all are, and else what the first other one is.
  lemma {:induction false} ConnectivesMean(ps: seq<Predicate>, i: nat, record: seq<Field>)
    requires i <= |ps|
    ensures (forall j :: 0 <= j < i ==> Evaluate(ps[j], record) == Ok(true))
            && (i < |ps| ==> Evaluate(ps[i], record) != Ok(true)) ==>
              Evaluate(And(ps), record) == if i < |ps| then Evaluate(ps[i], record) else Ok(true)
    ensures (forall j :: 0 <= j < i ==> Evaluate(ps[j], record) == Ok(false))
            && (i < |ps| ==> Evaluate(ps[i], record) != Ok(false)) ==>
              Evaluate(Or(ps), record) == if i < |ps| then Evaluate(ps[i], record) else Ok(false)
  {
    assert Evaluate(And(ps), record) == EvaluateAll(ps, record);
    assert Evaluate(Or(ps), record) == EvaluateAny(ps, record);
    if ps != [] && i > 0 {
      ConnectivesMean(ps[1..], i - 1, record);
      assert Evaluate(And(ps[1..]), record) == EvaluateAll(ps[1..], record);
      assert Evaluate(Or(ps[1..]), record) == EvaluateAny(ps[1..], record);
      assert forall j :: 0 < j < |ps| ==> ps[j] == ps[1..][j - 1];
    }
  }

  lemma NegationMeans(p: Predicate, record: seq<Field>)
    ensures Evaluate(p, record).Ok? ==> Evaluate(Not(p), record) == Ok(!Evaluate(p, record).value)
    ensures Evaluate(p, record).Err? ==> Evaluate(Not(p), record) == Evaluate(p, record)
  {
  }

  // ---------------------------------------------------------------- laws

  function NegateEach(ps: seq<Predicate>): (qs: seq<Predicate>)
    ensures |qs| == |ps|
  {
    if ps == [] then [] else [Not(ps[0])] + NegateEach(ps[1..])
  }

  lemma {:induction false} NegatedOperands(ps: seq<Predicate>, record: seq<Field>)
    ensures EvaluateAny(NegateEach(ps), record) == Negated(EvaluateAll(ps, record))
    ensures EvaluateAll(NegateEach(ps), record) == Negated(EvaluateAny(ps, record))
  {
    if ps != [] {
      var negated := NegateEach(ps);
      assert negated[0] == Not(ps[0]) && negated[1..] == NegateEach(ps[1..]);
      assert Evaluate(negated[0], record) == Negated(Evaluate(ps[0], record));
      NegatedOperands(ps[1..], record);
    }
  }

  // De Morgan, including which error is reported.
  lemma DeMorgan(ps: seq<Predicate>, record: seq<Field>)
    ensures Evaluate(Not(And(ps)), record) == Evaluate(Or(NegateEach(ps)), record)
    ensures Evaluate(Not(Or(ps)), record) == Evaluate(And(NegateEach(ps)), record)
  {
    NegatedOperands(ps, record);
    assert Evaluate(And(ps), record) == EvaluateAll(ps, record);
    assert Evaluate(Or(ps), record) == EvaluateAny(ps, record);
  }

  lemma DoubleNegation(p: Predicate, record: seq<Field>)
    ensures Evaluate(Not(Not(p)), record) == Evaluate(p, record)
  {
    assert Evaluate(Not(Not(p)), record) == Negated(Evaluate(Not(p), record));
  }

  // A conjunction is decided by its first operand that is not true.
  lemma {:induction false} AllOfConcatenation(a: seq<Predicate>, b: seq<Predicate>, record: seq<Field>)
    ensures EvaluateAll(a + b, record) ==
            if EvaluateAll(a, record) == Ok(true) then EvaluateAll(b, record) else EvaluateAll(a, record)
  {
    if a == [] {
      assert a + b == b;
    } else {
      assert (a + b)[1..] == a[1..] + b;
      AllOfConcatenation(a[1..], b, record);
    }
  }

  lemma {:induction false} AnyOfConcatenation(a: seq<Predicate>, b: seq<Predicate>, record: seq<Field>)
    ensures EvaluateAny(a + b, record) ==
            if EvaluateAny(a, record) == Ok(false) then EvaluateAny(b, record) else EvaluateAny(a, record)
  {
    if a == [] {
      assert a + b == b;
    } else {
      assert (a + b)[1..] == a[1..] + b;
      AnyOfConcatenation(a[1..], b, record);
    }
  }

  // Nested connectives of the same kind flatten, at any position.
  lemma Flatten(a: seq<Predicate>, b: seq<Predicate>, c: seq<Predicate>, record: seq<Field>)
    ensures Evaluate(And(a + [And(b)] + c), record) == Evaluate(And(a + b + c), record)
    ensures Evaluate(Or(a + [Or(b)] + c), record) == Evaluate(Or(a + b + c), record)
  {
    assert a + [And(b)] + c == a + ([And(b)] + c) && a + [Or(b)] + c == a + ([Or(b)] + c);
    assert a + b + c == a + (b + c);
    AllOfConcatenation(a, [And(b)] + c, record);
    AllOfConcatenation(a, b + c, record);
    AllOfConcatenation(b, c, record);
    AnyOfConcatenation(a, [Or(b)] + c, record);
    AnyOfConcatenation(a, b + c, record);
    AnyOfConcatenation(b, c, record);
    assert ([And(b)] + c)[1..] == c && ([Or(b)] + c)[1..] == c;
    assert Evaluate(And(b), record) == EvaluateAll(b, record);
    assert Evaluate(Or(b), record) == EvaluateAny(b, record);
  }

  // The position of the operand that decides a conjunction.
  lemma {:induction false} AllDecidedBy(ps: seq<Predicate>, record: seq<Field>) returns (i: nat)
    ensures i <= |ps|
    ensures forall j :: 0 <= j < i ==> Evaluate(ps[j], record) == Ok(true)
    ensures i == |ps| ==> EvaluateAll(ps, record) == Ok(true)
    ensures i < |ps| ==> Evaluate(ps[i], record) == EvaluateAll(ps, record) != Ok(true)
  {
    if ps == [] || Evaluate(ps[0], record) != Ok(true) {
      i := 0;
    } else {
      i := AllDecidedBy(ps[1..], record);
      i := i + 1;
    }
  }

  // Reordering a conjunction keeps the answer true, and keeps any other answer from becoming true:
  // what can change is only which of the operands that are not true is met first.
  lemma ReorderAll(ps: seq<Predicate>, qs: seq<Predicate>, record: seq<Field>)
    requires multiset(ps) == multiset(qs)
    ensures Evaluate(And(ps), record) == Ok(true) <==> Evaluate(And(qs), record) == Ok(true)
    ensures Evaluate(And(qs), record) != Ok(true) ==>
              exists p :: p in ps && Evaluate(p, record) == Evaluate(And(qs), record)
  {
    var i := AllDecidedBy(ps, record);
    var j := AllDecidedBy(qs, record);
    assert Evaluate(And(ps), record) == EvaluateAll(ps, record);
    assert Evaluate(And(qs), record) == EvaluateAll(qs, record);
    if i < |ps| {
      assert ps[i] in multiset(qs);
    }
    if j < |qs| {
      assert qs[j] in multiset(ps);
    }
  }

  // Two operands that fail to be true do so in the same way.
  ghost predicate Unanimous(ps: seq<Predicate>, record: seq<Field>) {
    forall p, q :: p in ps && q in ps && Evaluate(p, record) != Ok(true) && Evaluate(q, record) != Ok(true)
      ==> Evaluate(p, record) == Evaluate(q, record)
  }

  lemma MoveToFront(ps: seq<Predicate>, p: Predicate, record: seq<Field>) returns (qs: seq<Predicate>)
    requires p in ps && Evaluate(p, record) != Ok(true)
    ensures multiset(qs) == multiset(ps)
    ensures Evaluate(And(qs), record) == Evaluate(p, record)
  {
    qs := Fronted(ps, p);
    FirstDecides(qs, p, record);
  }

  lemma Fronted<T>(s: seq<T>, x: T) returns (r: seq<T>)
    requires x in s
    ensures multiset(r) == multiset(s) && r != [] && r[0] == x
  {
    var i :| 0 <= i < |s| && s[i] == x;
    r := [x] + (s[..i] + s[i + 1..]);
    assert s == s[..i] + [x] + s[i + 1..];
  }

  lemma FirstDecides(qs: seq<Predicate>, p: Predicate, record: seq<Field>)
    requires qs != [] && qs[0] == p && Evaluate(p, record) != Ok(true)
    ensures Evaluate(And(qs), record) == Evaluate(p, record)
  {
  }

  // A conjunction means the same in every order exactly when its operands fail unanimously.
  lemma OrderIrrelevantIff(ps: seq<Predicate>, record: seq<Field>)
    ensures (forall qs | multiset(qs) == multiset(ps) :: Evaluate(And(qs), record) == Evaluate(And(ps), record))
            <==> Unanimous(ps, record)
  {
    if Unanimous(ps, record) {
      forall qs | multiset(qs) == multiset(ps)
        ensures Evaluate(And(qs), record) == Evaluate(And(ps), record)
      {
        ReorderAll(ps, qs, record);
        ReorderAll(ps, ps, record);
      }
    } else {
      var p, q :| p in ps && q in ps && Evaluate(p, record) != Ok(true) && Evaluate(q, record) != Ok(true)
        && Evaluate(p, record) != Evaluate(q, record);
      var front := MoveToFront(ps, p, record);
      var other := MoveToFront(ps, q, record);
      assert Evaluate(And(front), record) != Evaluate(And(other), record);
    }
  }

  // ---------------------------------------------------------------- the same for disjunctions

  lemma {:induction false} AnyDecidedBy(ps: seq<Predicate>, record: seq<Field>) returns (i: nat)
    ensures i <= |ps|
    ensures forall j :: 0 <= j < i ==> Evaluate(ps[j], record) == Ok(false)
    ensures i == |ps| ==> EvaluateAny(ps, record) == Ok(false)
    ensures i < |ps| ==> Evaluate(ps[i], record) == EvaluateAny(ps, record) != Ok(false)
  {
    if ps == [] || Evaluate(ps[0], record) != Ok(false) {
      i := 0;
    } else {
      i := AnyDecidedBy(ps[1..], record);
      i := i + 1;
    }
  }

  // Reordering a disjunction keeps the answer false, and keeps any other answer from becoming false.
  lemma ReorderAny(ps: seq<Predicate>, qs: seq<Predicate>, record: seq<Field>)
    requires multiset(ps) == multiset(qs)
    ensures Evaluate(Or(ps), record) == Ok(false) <==> Evaluate(Or(qs), record) == Ok(false)
    ensures Evaluate(Or(qs), record) != Ok(false) ==>
              exists p :: p in ps && Evaluate(p, record) == Evaluate(Or(qs), record)
  {
    var i := AnyDecidedBy(ps, record);
    var j := AnyDecidedBy(qs, record);
    assert Evaluate(Or(ps), record) == EvaluateAny(ps, record);
    assert Evaluate(Or(qs), record) == EvaluateAny(qs, record);
    if i < |ps| {
      assert ps[i] in multiset(qs);
    }
    if j < |qs| {
      assert qs[j] in multiset(ps);
    }
  }

  // Two operands that fail to be false do so in the same way.
  ghost predicate UnanimousForOr(ps: seq<Predicate>, record: seq<Field>) {
    forall p, q :: p in ps && q in ps && Evaluate(p, record) != Ok(false) && Evaluate(q, record) != Ok(false)
      ==> Evaluate(p, record) == Evaluate(q, record)
  }

  lemma MoveToFrontOfOr(ps: seq<Predicate>, p: Predicate, record: seq<Field>) returns (qs: seq<Predicate>)
    requires p in ps && Evaluate(p, record) != Ok(false)
    ensures multiset(qs) == multiset(ps)
    ensures Evaluate(Or(qs), record) == Evaluate(p, record)
  {
    qs := Fronted(ps, p);
    FirstDecidesOr(qs, p, record);
  }

  lemma FirstDecidesOr(qs: seq<Predicate>, p: Predicate, record: seq<Field>)
    requires qs != [] && qs[0] == p && Evaluate(p, record) != Ok(false)
    ensures Evaluate(Or(qs), record) == Evaluate(p, record)
  {
  }

  // A disjunction means the same in every order exactly when its operands that are not false agree.
  lemma OrderIrrelevantForOrIff(ps: seq<Predicate>, record: seq<Field>)
    ensures (forall qs | multiset(qs) == multiset(ps) :: Evaluate(Or(qs), record) == Evaluate(Or(ps), record))
            <==> UnanimousForOr(ps, record)
  {
    if UnanimousForOr(ps, record) {
      forall qs | multiset(qs) == multiset(ps)
        ensures Evaluate(Or(qs), record) == Evaluate(Or(ps), record)
      {
        ReorderAny(ps, qs, record);
        ReorderAny(ps, ps, record);
      }
    } else {
      var p, q :| p in ps && q in ps && Evaluate(p, record) != Ok(false) && Evaluate(q, record) != Ok(false)
        && Evaluate(p, record) != Evaluate(q, record);
      var front := MoveToFrontOfOr(ps, p, record);
      var other := MoveToFrontOfOr(ps, q, record);
      assert Evaluate(Or(front), record) != Evaluate(Or(other), record);
    }
  }

  // ---------------------------------------------------------------- predicates that cannot fail

  predicate OrderingFree(p: Predicate)
    decreases p
  {
    match p
    case And(operands) => forall q :: q in operands ==> OrderingFree(q)
    case Or(operands) => forall q :: q in operands ==> OrderingFree(q)
    case Not(operand) => OrderingFree(operand)
    case _ => !p.Lt? && !p.Lte? && !p.Gt? && !p.Gte?
  }

  // Only ordering comparisons can fail.
  lemma {:induction false} OrderingFreeNeverFails(p: Predicate, record: seq<Field>)
    requires OrderingFree(p)
    ensures Evaluate(p, record).Ok?
    decreases p, 1
  {
    match p
    case And(operands) => OrderingFreeOperands(operands, record);
    case Or(operands) => OrderingFreeOperands(operands, record);
    case Not(operand) => OrderingFreeNeverFails(operand, record);
    case _ =>
  }

  lemma {:induction false} OrderingFreeOperands(ps: seq<Predicate>, record: seq<Field>)
    requires forall q :: q in ps ==> OrderingFree(q)
    ensures EvaluateAll(ps, record).Ok? && EvaluateAny(ps, record).Ok?
    decreases ps, 0
  {
    if ps != [] {
      OrderingFreeNeverFails(ps[0], record);
      OrderingFreeOperands(ps[1..], record);
    }
  }
}
