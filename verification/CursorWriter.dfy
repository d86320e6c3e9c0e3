/** How the server writes the canonical query string: every routine appends to one mutable buffer
    (crates/ketebe-server/src/cursor.rs). Each is proved to append the text that `Cursor` defines. */
module CursorWriter {
  import opened Wrappers
  import opened Text
  import opened Predicates
  import opened Cursor

  class Buffer {
    var text: string

    constructor ()
      ensures text == ""
    {
      text := "";
    }

    method PushStr(s: string)
      modifies this
      ensures text == old(text) + s
    {
      text := text + s;
    }
  }

  lemma {:induction false} ItemsTextAppend(items: seq<Metadata>, last: Metadata)
    ensures ItemsText(items + [last]) == ItemsText(items) + MetadataText(last) + ","
  {
    var all := items + [last];
    if items == [] {
      assert all[1..] == [];
    } else {
      assert all[1..] == items[1..] + [last];
      ItemsTextAppend(items[1..], last);
    }
  }

  lemma {:induction false} FieldsTextAppend(fields: seq<Field>, last: Field)
    ensures FieldsText(fields + [last]) == FieldsText(fields) + FieldText(last)
  {
    var all := fields + [last];
    if fields == [] {
      assert all[1..] == [];
    } else {
      assert all[1..] == fields[1..] + [last];
      FieldsTextAppend(fields[1..], last);
    }
  }

  lemma {:induction false} PathTextAppend(segments: seq<string>, last: string)
    ensures PathText(segments + [last]) == PathText(segments) + StringText(last) + "/"
  {
    var all := segments + [last];
    if segments == [] {
      assert all[1..] == [];
    } else {
      assert all[1..] == segments[1..] + [last];
      PathTextAppend(segments[1..], last);
    }
  }

  lemma {:induction false} OperandsTextAppend(operands: seq<Predicate>, last: Predicate)
    ensures OperandsText(operands + [last]) == OperandsText(operands) + (PredicateText(last) + ";")
  {
    var all := operands + [last];
    if operands == [] {
      assert all[1..] == [];
    } else {
      assert all[1..] == operands[1..] + [last];
      OperandsTextAppend(operands[1..], last);
    }
  }

  lemma OperandsTextNext(values: seq<Predicate>, i: nat, start: string, before: string, after: string)
    requires i < |values|
    requires before == start + OperandsText(values[..i])
    requires after == before + (PredicateText(values[i]) + ";")
    ensures after == start + OperandsText(values[..i + 1])
  {
    OperandsTextAppend(values[..i], values[i]);
    assert values[..i + 1] == values[..i] + [values[i]];
    Regroup3(start, OperandsText(values[..i]), PredicateText(values[i]) + ";");
  }

  lemma {:induction false} VectorTextAppend(vector: seq<Bits32>, last: Bits32)
    ensures VectorText(vector + [last]) == VectorText(vector) + Hex(last, 8) + ","
  {
    var all := vector + [last];
    if vector == [] {
      assert all[1..] == [];
    } else {
      assert all[1..] == vector[1..] + [last];
      VectorTextAppend(vector[1..], last);
    }
  }

  // One more entry, which ends in a delimiter, in what has been added to the buffer.
  lemma GrowsBy(start: string, done: string, entry: string, delimiter: string, all: string, before: string,
                after: string)
    requires before == start + done && after == before + entry + delimiter && all == done + entry + delimiter
    ensures after == start + all
  {
  }

  method PushString(out: Buffer, v: string)
    modifies out
    ensures out.text == old(out.text) + StringText(v)
  {
    out.PushStr(Decimal(|v|));
    out.PushStr(":");
    out.PushStr(v);
  }

  method PushPath(out: Buffer, path: seq<string>)
    modifies out
    ensures out.text == old(out.text) + PathText(path)
  {
    for i := 0 to |path|
      invariant out.text == old(out.text) + PathText(path[..i])
    {
      ghost var before := out.text;
      PathTextAppend(path[..i], path[i]);
      assert path[..i + 1] == path[..i] + [path[i]];
      PushString(out, path[i]);
      out.PushStr("/");
      GrowsBy(old(out.text), PathText(path[..i]), StringText(path[i]), "/", PathText(path[..i + 1]), before, out.text);
    }
    assert path[..|path|] == path;
  }

  method PushItems(out: Buffer, items: seq<Metadata>)
    modifies out
    ensures out.text == old(out.text) + ItemsText(items)
    decreases items, 0
  {
    for i := 0 to |items|
      invariant out.text == old(out.text) + ItemsText(items[..i])
    {
      ghost var before := out.text;
      ItemsTextAppend(items[..i], items[i]);
      assert items[..i + 1] == items[..i] + [items[i]];
      PushMetadata(out, items[i]);
      out.PushStr(",");
      GrowsBy(old(out.text), ItemsText(items[..i]), MetadataText(items[i]), ",", ItemsText(items[..i + 1]), before,
              out.text);
    }
    assert items[..|items|] == items;
  }

  method PushFields(out: Buffer, fields: seq<Field>)
    modifies out
    ensures out.text == old(out.text) + FieldsText(fields)
    decreases fields, 0
  {
    for i := 0 to |fields|
      invariant out.text == old(out.text) + FieldsText(fields[..i])
    {
      ghost var before := out.text;
      FieldsTextAppend(fields[..i], fields[i]);
      assert fields[..i + 1] == fields[..i] + [fields[i]];
      PushField(out, fields[i]);
      GrowsBy(old(out.text), FieldsText(fields[..i]), FieldText(fields[i]), "", FieldsText(fields[..i + 1]), before,
              out.text);
    }
    assert fields[..|fields|] == fields;
  }

  method PushField(out: Buffer, f: Field)
    modifies out
    ensures out.text == old(out.text) + FieldText(f)
    decreases f, 2
  {
    PushString(out, f.key);
    out.PushStr(":");
    PushMetadata(out, f.value);
    out.PushStr(",");
  }

  method PushMetadata(out: Buffer, v: Metadata)
    modifies out
    ensures out.text == old(out.text) + MetadataText(v)
    decreases v, 1
  {
    match v
    case Null => out.PushStr("n");
    case Bool(flag) => out.PushStr(if flag then "t" else "f");
    case Number(bits) => out.PushStr("d" + Hex(bits, 16));
    case Str(text) => PushTagged(out, "s", text);
    case Array(items) => PushArray(out, items);
    case Object(fields) => PushObject(out, fields);
  }

  method PushTagged(out: Buffer, tag: string, v: string)
    modifies out
    ensures out.text == old(out.text) + (tag + StringText(v))
  {
    Regroup3(out.text, tag, StringText(v));
    out.PushStr(tag);
    PushString(out, v);
  }

  method PushArray(out: Buffer, items: seq<Metadata>)
    modifies out
    ensures out.text == old(out.text) + ("[" + ItemsText(items) + "]")
    decreases items, 1
  {
    Regroup4(out.text, "[", ItemsText(items), "]");
    out.PushStr("[");
    PushItems(out, items);
    out.PushStr("]");
  }

  method PushObject(out: Buffer, fields: seq<Field>)
    modifies out
    ensures out.text == old(out.text) + ("{" + FieldsText(fields) + "}")
    decreases fields, 1
  {
    Regroup4(out.text, "{", FieldsText(fields), "}");
    out.PushStr("{");
    PushFields(out, fields);
    out.PushStr("}");
  }

  method PushCmp(out: Buffer, name: string, path: FieldPath, value: Metadata, ghost k: Keyword)
    requires name + "[" == KeywordText(k)
    modifies out
    ensures out.text == old(out.text) + (KeywordText(k) + ComparisonText(path, value))
  {
    RegroupCmp(out.text, name, path, value);
    out.PushStr(name);
    out.PushStr("[");
    PushPath(out, path);
    out.PushStr(":");
    PushMetadata(out, value);
    out.PushStr("]");
  }

  lemma RegroupCmp(start: string, name: string, path: FieldPath, value: Metadata)
    ensures start + name + "[" + PathText(path) + ":" + MetadataText(value) + "]"
            == start + (name + "[" + ComparisonText(path, value))
  {
    Regroup3(start, name, "[");
    Regroup5(start + (name + "["), PathText(path), ":", MetadataText(value), "]");
    Regroup3(start, name + "[", ComparisonText(path, value));
  }

  method PushOperands(out: Buffer, values: seq<Predicate>)
    modifies out
    ensures out.text == old(out.text) + OperandsText(values)
    decreases values, 0
  {
    for i := 0 to |values|
      invariant out.text == old(out.text) + OperandsText(values[..i])
    {
      ghost var before := out.text;
      PushOperand(out, values[i]);
      OperandsTextNext(values, i, old(out.text), before, out.text);
    }
    assert values[..|values|] == values;
  }

  method PushOperand(out: Buffer, p: Predicate)
    modifies out
    ensures out.text == old(out.text) + (PredicateText(p) + ";")
    decreases p, 3
  {
    PushPredicate(out, p);
    out.PushStr(";");
  }

  method PushList(out: Buffer, name: string, values: seq<Predicate>, ghost k: Keyword)
    requires name + "(" == KeywordText(k)
    modifies out
    ensures out.text == old(out.text) + (KeywordText(k) + (OperandsText(values) + ")"))
    decreases values, 1
  {
    Regroup3(out.text, name, "(");
    Regroup3(out.text, name + "(", OperandsText(values) + ")");
    Regroup3(out.text + (name + "("), OperandsText(values), ")");
    out.PushStr(name);
    out.PushStr("(");
    PushOperands(out, values);
    out.PushStr(")");
  }

  method PushExists(out: Buffer, path: FieldPath)
    modifies out
    ensures out.text == old(out.text) + ("exists[" + BodyText(Exists(path)))
  {
    out.PushStr("exists[");
    PushPath(out, path);
    out.PushStr("]");
  }

  method PushIn(out: Buffer, path: FieldPath, candidates: seq<Metadata>)
    modifies out
    ensures out.text == old(out.text) + ("in[" + BodyText(In(path, candidates)))
  {
    out.PushStr("in[");
    PushPath(out, path);
    out.PushStr(":");
    PushItems(out, candidates);
    out.PushStr("]");
  }

  method PushNot(out: Buffer, operand: Predicate)
    modifies out
    ensures out.text == old(out.text) + ("not(" + PredicateText(operand) + ")")
    decreases operand, 3
  {
    Regroup4(out.text, "not(", PredicateText(operand), ")");
    out.PushStr("not(");
    PushPredicate(out, operand);
    out.PushStr(")");
  }

  method PushComparison(out: Buffer, p: Predicate)
    requires IsComparison(KeywordOf(p))
    modifies out
    ensures out.text == old(out.text) + PredicateText(p)
  {
    match p {
      case Eq(path, v) => PushCmp(out, "eq", path, v, KeyEq);
      case Ne(path, v) => PushCmp(out, "ne", path, v, KeyNe);
      case Lt(path, v) => PushCmp(out, "lt", path, v, KeyLt);
      case Lte(path, v) => PushCmp(out, "lte", path, v, KeyLte);
      case Gt(path, v) => PushCmp(out, "gt", path, v, KeyGt);
      case Gte(path, v) => PushCmp(out, "gte", path, v, KeyGte);
      case Contains(path, v) => PushCmp(out, "contains", path, v, KeyContains);
    }
  }

  method PushPredicate(out: Buffer, p: Predicate)
    modifies out
    ensures out.text == old(out.text) + PredicateText(p)
    decreases p, 2
  {
    match p {
      case Exists(path) => PushExists(out, path);
      case In(path, candidates) => PushIn(out, path, candidates);
      case And(operands) => PushList(out, "and", operands, KeyAnd);
      case Or(operands) => PushList(out, "or", operands, KeyOr);
      case Not(operand) =>
        Regroup3("not(", PredicateText(operand), ")");
        PushNot(out, operand);
      case _ => PushComparison(out, p);
    }
  }

  method PushVector(out: Buffer, vector: seq<Bits32>)
    modifies out
    ensures out.text == old(out.text) + VectorText(vector)
  {
    for i := 0 to |vector|
      invariant out.text == old(out.text) + VectorText(vector[..i])
    {
      ghost var before := out.text;
      VectorTextAppend(vector[..i], vector[i]);
      assert vector[..i + 1] == vector[..i] + [vector[i]];
      Regroup3(before, Hex(vector[i], 8), ",");
      out.PushStr(Hex(vector[i], 8) + ",");
      GrowsBy(old(out.text), VectorText(vector[..i]), Hex(vector[i], 8), ",", VectorText(vector[..i + 1]), before,
              out.text);
    }
    assert vector[..|vector|] == vector;
  }

  method WriteCanonical(b: Binding) returns (canonical: string)
    ensures canonical == CanonicalText(b)
  {
    var out := new Buffer();
    out.PushStr(PREFIX);
    PushString(out, b.collection);
    out.PushStr("|");
    out.PushStr(MetricText(b.metric));
    out.PushStr("|");
    out.PushStr(ExecutionText(b.execution));
    out.PushStr("|");
    PushString(out, ProfileName(b.profile));
    out.PushStr("|");
    PushVector(out, b.vector);
    out.PushStr("|");
    match b.filter {
      case Some(p) => PushPredicate(out, p);
      case None => out.PushStr("-");
    }
    canonical := out.text;
    assert "" + PREFIX == PREFIX;
  }
}
