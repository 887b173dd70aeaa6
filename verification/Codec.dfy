/** Conversion between tagged structs and string maps (pkg/util/map_utils.go). A struct is the list
    of its fields; reflection on Go types becomes the schema. */
module Codec {
  import opened Basics
  import opened Decimal

  datatype Kind = IntKind | BoolKind | StringKind | OtherKind

  /** `Other` is a value of a kind MapToStruct cannot read; `text` is its %v form. */
  datatype Value = Int(i: goint) | Bool(b: bool) | Str(s: string) | Other(text: string) {
    function Kind(): Kind {
      match this
      case Int(_) => IntKind
      case Bool(_) => BoolKind
      case Str(_) => StringKind
      case Other(_) => OtherKind
    }
  }

  /** A struct field; the empty tag marks a field the codec skips. */
  datatype Field = Field(tag: string, kind: Kind)

  type Schema = seq<Field>

  predicate Typed(schema: Schema, vals: seq<Value>) {
    |vals| == |schema| && forall i :: 0 <= i < |schema| ==> vals[i].Kind() == schema[i].kind
  }

  predicate DistinctTags(schema: Schema) {
    forall i, j :: 0 <= i < j < |schema| && schema[i].tag != "" ==> schema[i].tag != schema[j].tag
  }

  /** A Go map reference. */
  class StringMap {
    var entries: map<string, string>

    constructor (entries: map<string, string>)
      ensures this.entries == entries
    {
      this.entries := entries;
    }
  }

  // ----- One value -----

  function Print(v: Value): string {
    match v
    case Int(i) => Itoa(i)
    case Bool(b) => if b then "true" else "false"
    case Str(s) => s
    case Other(t) => t
  }

  function ParseBool(s: string): Option<bool> {
    if s in {"1", "t", "T", "true", "TRUE", "True"} then Some(true)
    else if s in {"0", "f", "F", "false", "FALSE", "False"} then Some(false)
    else None
  }

  function Parse(kind: Kind, s: string): (r: Option<Value>)
    ensures r.Some? ==> r.value.Kind() == kind
  {
    match kind
    case IntKind => (var n := Atoi(s); if n.None? then None else Some(Int(n.value)))
    case BoolKind => (var b := ParseBool(s); if b.None? then None else Some(Bool(b.value)))
    case StringKind => Some(Str(s))
    case OtherKind => None
  }

  /** A value is printed as its text, a bool as a word, an int as in ItoaCanonical, and parses back. */
  lemma ParsePrint(v: Value)
    ensures Parse(v.Kind(), Print(v)) == if v.Other? then None else Some(v)
    ensures Print(Bool(true)) == "true" && Print(Bool(false)) == "false"
  {
    if v.Int? {
      AtoiItoa(v.i);
    }
  }

  /** Which texts are values of a kind: for an int an optional sign and digits in range, for a bool one of
      twelve words, for a string every text. */
  lemma ParseExactly(s: string)
    ensures Parse(IntKind, s).Some? <==> AllDigits(Unsigned(s)) && INT_MIN <= ValueOf(s) <= INT_MAX
    ensures Parse(IntKind, s).Some? ==> Parse(IntKind, s).value == Int(ValueOf(s))
    ensures Parse(BoolKind, s) == Some(Bool(true)) <==>
      s == "1" || s == "t" || s == "T" || s == "true" || s == "TRUE" || s == "True"
    ensures Parse(BoolKind, s) == Some(Bool(false)) <==>
      s == "0" || s == "f" || s == "F" || s == "false" || s == "FALSE" || s == "False"
    ensures Parse(BoolKind, s).Some? ==> Parse(BoolKind, s).value.Bool?
    ensures Parse(StringKind, s) == Some(Str(s)) && Parse(OtherKind, s) == None
  {
    AtoiExactly(s);
  }

  // ----- StructToMap -----

  /** The map after the first n fields are written into m. */
  function Written(schema: Schema, vals: seq<Value>, m: map<string, string>, prefix: string, n: nat): map<string,
                   string>
    requires n <= |schema| == |vals|
  {
    if n == 0 then
      m
    else
      var w := Written(schema, vals, m, prefix, n - 1);
      if schema[n - 1].tag == "" then w else w[prefix + schema[n - 1].tag := Print(vals[n - 1])]
  }

  method StructToMap(schema: Schema, vals: seq<Value>, out: StringMap?, prefix: string) returns (ok: bool)
    requires |schema| == |vals|
    modifies out
    ensures ok == (out != null)
    ensures ok ==> out.entries == Written(schema, vals, old(out.entries), prefix, |schema|)
  {
    if out == null {
      return false;
    }
    for i := 0 to |schema|
      invariant out.entries == Written(schema, vals, old(out.entries), prefix, i)
    {
      var tagName := schema[i].tag;
      if tagName == "" {
        continue;
      }
      out.entries := out.entries[prefix + tagName := Print(vals[i])];
    }
    return true;
  }

  predicate IsKey(schema: Schema, prefix: string, n: nat, key: string)
    requires n <= |schema|
  {
    exists i :: 0 <= i < n && schema[i].tag != "" && key == prefix + schema[i].tag
  }

  /** Each tagged field is found under its key, and no other key is touched. */
  lemma {:induction false} WrittenLookup(schema: Schema, vals: seq<Value>, m: map<string, string>, prefix: string,
                                         n: nat, key: string)
    requires n <= |schema| == |vals| && DistinctTags(schema)
    ensures var w := Written(schema, vals, m, prefix, n);
      && (forall i :: 0 <= i < n && schema[i].tag != "" && key == prefix + schema[i].tag ==>
            key in w && w[key] == Print(vals[i]))
      && (!IsKey(schema, prefix, n, key) ==> (key in w <==> key in m) && (key in m ==> w[key] == m[key]))
  {
    if n > 0 {
      WrittenLookup(schema, vals, m, prefix, n - 1, key);
      forall i | 0 <= i < n - 1 && schema[i].tag != ""
        ensures prefix + schema[i].tag != prefix + schema[n - 1].tag
      {
        assert (prefix + schema[i].tag)[|prefix|..] == schema[i].tag;
        assert (prefix + schema[n - 1].tag)[|prefix|..] == schema[n - 1].tag;
      }
    }
  }

  // ----- MapToStruct -----

  /** Field i has an entry in m under the prefix. */
  predicate Present(schema: Schema, m: map<string, string>, prefix: string, i: nat)
    requires i < |schema|
  {
    schema[i].tag != "" && prefix + schema[i].tag in m
  }

  function Read(schema: Schema, m: map<string, string>, prefix: string, i: nat): Option<Value>
    requires i < |schema| && Present(schema, m, prefix, i)
  {
    Parse(schema[i].kind, m[prefix + schema[i].tag])
  }

  /** Field i has an entry that does not parse. */
  predicate Bad(schema: Schema, m: map<string, string>, prefix: string, i: nat)
    requires i < |schema|
  {
    Present(schema, m, prefix, i) && Read(schema, m, prefix, i).None?
  }

  /** The first bad field at or after i, or the number of fields. */
  function FirstBad(schema: Schema, m: map<string, string>, prefix: string, i: nat): (k: nat)
    requires i <= |schema|
    ensures i <= k <= |schema|
    ensures k < |schema| ==> Bad(schema, m, prefix, k)
    ensures forall j: nat :: i <= j < k ==> !Bad(schema, m, prefix, j)
    decreases |schema| - i
  {
    if i == |schema| || Bad(schema, m, prefix, i) then i else FirstBad(schema, m, prefix, i + 1)
  }

  /** The struct with its first n fields taken from m where m has them. */
  function Filled(schema: Schema, m: map<string, string>, prefix: string, vals: seq<Value>, n: nat): (r: seq<Value>)
    requires Typed(schema, vals)
    ensures Typed(schema, r)
  {
    seq(|vals|, i requires 0 <= i < |vals| => if i < n then Taken(schema, m, prefix, vals, i) else vals[i])
  }

  function Taken(schema: Schema, m: map<string, string>, prefix: string, vals: seq<Value>, i: nat): (v: Value)
    requires Typed(schema, vals) && i < |schema|
    ensures v.Kind() == schema[i].kind
  {
    if Present(schema, m, prefix, i) && !Bad(schema, m, prefix, i) then Read(schema, m, prefix, i).value else vals[i]
  }

  /** Fields before the first entry that does not parse are taken over; that field and all later
      ones keep their values; success means there was no such entry. */
  method MapToStruct(input: StringMap?, schema: Schema, out: array<Value>, prefix: string) returns (ok: bool)
    requires Typed(schema, out[..])
    modifies out
    ensures input == null ==> !ok && out[..] == old(out[..])
    ensures input != null ==>
      var k := FirstBad(schema, input.entries, prefix, 0);
      ok == (k == |schema|) && out[..] == Filled(schema, input.entries, prefix, old(out[..]), k)
  {
    if input == null {
      return false;
    }
    var m := input.entries;
    ghost var k := FirstBad(schema, m, prefix, 0);
    for i := 0 to |schema|
      invariant i <= k
      invariant out[..] == Filled(schema, m, prefix, old(out[..]), i)
    {
      var tagName := schema[i].tag;
      if tagName == "" || prefix + tagName !in m {
        assert !Present(schema, m, prefix, i);
        continue;
      }
      var value := Parse(schema[i].kind, m[prefix + tagName]);
      if value.None? {
        assert Bad(schema, m, prefix, i);
        return false;
      }
      assert !Bad(schema, m, prefix, i);
      out[i] := value.value;
    }
    return true;
  }

  // ----- Round trip -----

  /** Writing a struct into any map and reading it into any struct of the type restores every tagged
      field and succeeds, exactly when every tagged field is of a readable kind. */
  lemma RoundTrip(schema: Schema, vals: seq<Value>, other: seq<Value>, m: map<string, string>, prefix: string)
    requires Typed(schema, vals) && Typed(schema, other) && DistinctTags(schema)
    ensures var w := Written(schema, vals, m, prefix, |schema|);
      var k := FirstBad(schema, w, prefix, 0);
      var r := Filled(schema, w, prefix, other, k);
      && (k == |schema| <==> forall i :: 0 <= i < |schema| && schema[i].tag != "" ==> schema[i].kind != OtherKind)
      && (forall i :: 0 <= i < |schema| ==> r[i] == if i < k && schema[i].tag != "" then vals[i] else other[i])
  {
    var w := Written(schema, vals, m, prefix, |schema|);
    forall i: nat | i < |schema| && schema[i].tag != ""
      ensures Present(schema, w, prefix, i)
      ensures Read(schema, w, prefix, i) == if vals[i].Other? then None else Some(vals[i])
    {
      WrittenLookup(schema, vals, m, prefix, |schema|, prefix + schema[i].tag);
      ParsePrint(vals[i]);
    }
    var k := FirstBad(schema, w, prefix, 0);
    if k < |schema| {
      assert Bad(schema, w, prefix, k);
    } else {
      forall i: nat | i < |schema| && schema[i].tag != ""
        ensures schema[i].kind != OtherKind
      {
        assert !Bad(schema, w, prefix, i);
      }
    }
    var r := Filled(schema, w, prefix, other, k);
    forall i: nat | i < |schema|
      ensures r[i] == if i < k && schema[i].tag != "" then vals[i] else other[i]
    {
      if i < k && schema[i].tag != "" {
        assert !Bad(schema, w, prefix, i);
      }
    }
  }
}
