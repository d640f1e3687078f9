/** Deterministic serialisation of audit payloads: object keys are sorted at every depth. */
module Serialization {
  import opened Scalars
  import opened Sorting

  /**
   * A payload tree. A number is given by the text String prints for it, a date by its ISO text; an
   * object's fields are listed in whatever key order the store returns. A char stands for one
   * UTF-16 code unit.
   */
  datatype Value =
    | Null
    | Undefined
    | Boolean(value: bool)
    | Number(printed: NumberText)
    | Date(iso: DateText)
    | Text(text: string)
    | Array(items: seq<Value>)
    | Object(fields: seq<Field>)

  datatype Field = Field(key: string, value: Value)

  /** A field whose value is already text. */
  datatype Rendering = Rendering(key: string, text: string)

  /** The default order of Array.prototype.sort. */
  predicate StrLess(a: string, b: string) {
    if b == "" then false
    else if a == "" then true
    else a[0] < b[0] || (a[0] == b[0] && StrLess(a[1..], b[1..]))
  }

  predicate KeyLess(x: Rendering, y: Rendering) {
    StrLess(x.key, y.key)
  }

  function Join(parts: seq<string>, separator: string): string {
    if parts == [] then ""
    else if |parts| == 1 then parts[0]
    else parts[0] + separator + Join(parts[1..], separator)
  }

  function Entries(rendered: seq<Rendering>): seq<string> {
    if rendered == [] then [] else [rendered[0].key + ":" + rendered[0].text] + Entries(rendered[1..])
  }

  function Serialize(v: Value): string
    decreases v
  {
    match v
    case Null => "null"
    case Undefined => "undefined"
    case Boolean(value) => if value then "true" else "false"
    case Number(printed) => printed
    case Date(iso) => iso
    case Text(text) => text
    case Array(items) => "[" + Join(SerializeAll(items), ",") + "]"
    case Object(fields) => "{" + Join(Entries(Sort(Rendered(fields), KeyLess)), ",") + "}"
  }

  function SerializeAll(items: seq<Value>): (r: seq<string>)
    ensures |r| == |items|
    ensures forall i | 0 <= i < |items| :: r[i] == Serialize(items[i])
    decreases items
  {
    if items == [] then [] else [Serialize(items[0])] + SerializeAll(items[1..])
  }

  function Rendered(fields: seq<Field>): (r: seq<Rendering>)
    ensures |r| == |fields|
    ensures forall i | 0 <= i < |fields| :: r[i] == Rendering(fields[i].key, Serialize(fields[i].value))
    decreases fields
  {
    if fields == [] then [] else [Rendering(fields[0].key, Serialize(fields[0].value))] + Rendered(fields[1..])
  }

  // ---- key order does not matter ----

  predicate DistinctKeys(fields: seq<Field>) {
    forall i, j | 0 <= i < j < |fields| :: fields[i].key != fields[j].key
  }

  /** Objects hold each key once, at every depth. */
  ghost predicate WellFormed(v: Value)
    decreases v
  {
    match v
    case Array(items) => forall i | 0 <= i < |items| :: WellFormed(items[i])
    case Object(fields) => DistinctKeys(fields) && AllWellFormed(fields)
    case _ => true
  }

  predicate IsScalar(v: Value) {
    !v.Array? && !v.Object?
  }

  /**
   * The two trees differ at most in the order of object keys, at any depth. With `kinds` their
   * scalars are the same; without, they only print alike: the number 1 and the string "1" do.
   */
  ghost predicate Same(v: Value, w: Value, kinds: bool)
    decreases v
  {
    match (v, w)
    case (Array(a), Array(b)) => |a| == |b| && forall i | 0 <= i < |a| :: Same(a[i], b[i], kinds)
    case (Object(f), Object(g)) => Covers(f, g, kinds) && CoveredBy(f, g, kinds)
    case _ => if kinds then v == w else IsScalar(v) && IsScalar(w) && Serialize(v) == Serialize(w)
  }

  ghost predicate SameUpToKeyOrder(v: Value, w: Value) {
    Same(v, w, true)
  }

  ghost predicate SameUpToKinds(v: Value, w: Value) {
    Same(v, w, false)
  }

  /** Every field of f occurs in g, up to key order in its value. */
  ghost predicate Covers(f: seq<Field>, g: seq<Field>, kinds: bool)
    decreases f, 1
  {
    forall i | 0 <= i < |f| :: OccursIn(f[i], g, kinds)
  }

  ghost predicate OccursIn(x: Field, g: seq<Field>, kinds: bool)
    decreases x
  {
    exists j {:trigger g[j]} :: 0 <= j < |g| && x.key == g[j].key && Same(x.value, g[j].value, kinds)
  }

  /** Every field of g occurs in f. */
  ghost predicate CoveredBy(f: seq<Field>, g: seq<Field>, kinds: bool)
    decreases f, 1
  {
    forall j | 0 <= j < |g| :: Contains(f, g[j], kinds)
  }

  ghost predicate Contains(f: seq<Field>, y: Field, kinds: bool)
    decreases f, 0
  {
    exists i {:trigger f[i]} :: 0 <= i < |f| && f[i].key == y.key && Same(f[i].value, y.value, kinds)
  }

  ghost predicate AllWellFormed(fields: seq<Field>)
    decreases fields
  {
    forall i | 0 <= i < |fields| :: WellFormed(fields[i].value)
  }

  lemma {:induction false} StrLessTransitive(a: string, b: string, c: string)
    requires StrLess(a, b) && StrLess(b, c)
    ensures StrLess(a, c)
  {
    if a != "" && a[0] == b[0] && b[0] == c[0] {
      StrLessTransitive(a[1..], b[1..], c[1..]);
    }
  }

  lemma {:induction false} StrLessIrreflexive(a: string)
    ensures !StrLess(a, a)
  {
    if a != "" {
      StrLessIrreflexive(a[1..]);
    }
  }

  lemma {:induction false} StrLessTotal(a: string, b: string)
    requires a != b
    ensures StrLess(a, b) || StrLess(b, a)
  {
    if a != "" && b != "" && a[0] == b[0] {
      assert a == [a[0]] + a[1..] && b == [b[0]] + b[1..];
      StrLessTotal(a[1..], b[1..]);
    }
  }

  lemma KeyLessIsOrder()
    ensures Transitive(KeyLess) && Irreflexive(KeyLess)
  {
    forall x: Rendering, y: Rendering, z: Rendering | KeyLess(x, y) && KeyLess(y, z)
      ensures KeyLess(x, z)
    {
      StrLessTransitive(x.key, y.key, z.key);
    }
    forall x: Rendering ensures !KeyLess(x, x) {
      StrLessIrreflexive(x.key);
    }
  }

  lemma RenderedSorts(fields: seq<Field>)
    requires DistinctKeys(fields)
    ensures StrictlySorted(Sort(Rendered(fields), KeyLess), KeyLess)
    ensures forall x :: x in Sort(Rendered(fields), KeyLess) <==> x in Rendered(fields)
  {
    var r := Rendered(fields);
    KeyLessIsOrder();
    forall i, j | 0 <= i < j < |r| ensures KeyLess(r[i], r[j]) || KeyLess(r[j], r[i]) {
      StrLessTotal(r[i].key, r[j].key);
    }
    SortSorts(r, KeyLess);
    SortElements(r, KeyLess);
  }

  /** Trees that are the same up to key order, or even up to kinds, have the same text. */
  lemma {:induction false} SameText(v: Value, w: Value, kinds: bool)
    requires WellFormed(v) && WellFormed(w) && Same(v, w, kinds)
    ensures Serialize(v) == Serialize(w)
    decreases v, 1
  {
    match (v, w)
    case (Array(a), Array(b)) =>
      forall i | 0 <= i < |a| ensures Serialize(a[i]) == Serialize(b[i]) {
        SameText(a[i], b[i], kinds);
      }
      assert SerializeAll(a) == SerializeAll(b);
    case (Object(f), Object(g)) =>
      FieldsMatch(f, g, v, kinds);
      RenderedSorts(f);
      RenderedSorts(g);
      KeyLessIsOrder();
      SortedUnique(Sort(Rendered(f), KeyLess), Sort(Rendered(g), KeyLess), KeyLess);
    case _ =>
  }

  lemma {:induction false} FieldsMatch(f: seq<Field>, g: seq<Field>, v: Value, kinds: bool)
    requires v == Object(f) && AllWellFormed(f) && AllWellFormed(g) && Covers(f, g, kinds) && CoveredBy(f, g, kinds)
    ensures forall x :: x in Rendered(f) <==> x in Rendered(g)
    decreases v, 0
  {
    forall i | 0 <= i < |f| ensures Rendered(f)[i] in Rendered(g) {
      FieldFound(f, g, i, kinds);
    }
    forall j | 0 <= j < |g| ensures Rendered(g)[j] in Rendered(f) {
      FieldFoundBack(f, g, j, kinds);
    }
  }

  lemma {:induction false} FieldFound(f: seq<Field>, g: seq<Field>, i: nat, kinds: bool)
    requires AllWellFormed(f) && AllWellFormed(g) && Covers(f, g, kinds) && i < |f|
    ensures Rendered(f)[i] in Rendered(g)
    decreases f, 1
  {
    assert OccursIn(f[i], g, kinds);
    forall j {:trigger g[j]} | 0 <= j < |g| && f[i].key == g[j].key && Same(f[i].value, g[j].value, kinds)
      ensures Rendered(f)[i] in Rendered(g)
    {
      FieldMatches(f, g, i, j, kinds);
    }
  }

  lemma {:induction false} FieldFoundBack(f: seq<Field>, g: seq<Field>, j: nat, kinds: bool)
    requires AllWellFormed(f) && AllWellFormed(g) && CoveredBy(f, g, kinds) && j < |g|
    ensures Rendered(g)[j] in Rendered(f)
    decreases f, 1
  {
    assert Contains(f, g[j], kinds);
    forall i {:trigger f[i]} | 0 <= i < |f| && f[i].key == g[j].key && Same(f[i].value, g[j].value, kinds)
      ensures Rendered(g)[j] in Rendered(f)
    {
      FieldMatches(f, g, i, j, kinds);
    }
  }

  lemma {:induction false} FieldMatches(f: seq<Field>, g: seq<Field>, i: nat, j: nat, kinds: bool)
    requires i < |f| && j < |g| && f[i].key == g[j].key
    requires WellFormed(f[i].value) && WellFormed(g[j].value) && Same(f[i].value, g[j].value, kinds)
    ensures Rendered(f)[i] == Rendered(g)[j]
    decreases f[i].value, 2
  {
    SameText(f[i].value, g[j].value, kinds);
  }

  /** A payload serialises to the same text whatever key order the store returns. */
  lemma KeyOrderIrrelevant(v: Value, w: Value)
    requires WellFormed(v) && WellFormed(w) && SameUpToKeyOrder(v, w)
    ensures Serialize(v) == Serialize(w)
  {
    SameText(v, w, true);
  }

  lemma SortTwo(x: Rendering, y: Rendering)
    requires KeyLess(x, y)
    ensures Sort([y, x], KeyLess) == [x, y]
  {
    KeyLessIsOrder();
    assert [y, x][1..] == [x] && [x][1..] == [];
    assert Sort([x], KeyLess) == [x];
    assert KeyLess(y, x) ==> KeyLess(x, x);
    assert Insert(y, [], KeyLess) == [y];
  }

  lemma EntriesTwo(x: Rendering, y: Rendering)
    ensures Join(Entries([x, y]), ",") == (x.key + ":" + x.text) + "," + (y.key + ":" + y.text)
  {
    assert [x, y][1..] == [y] && [y][1..] == [];
    assert Entries([y]) == [y.key + ":" + y.text];
    var entries := Entries([x, y]);
    assert entries[1..] == [y.key + ":" + y.text];
  }

  lemma RenderedTwo(f: Field, g: Field)
    ensures Rendered([f, g]) == [Rendering(f.key, Serialize(f.value)), Rendering(g.key, Serialize(g.value))]
  {
  }

  /** The text of an object of two fields, written in the other order. */
  lemma TwoFieldsText(k: string, v: Value, l: string, w: Value)
    requires StrLess(k, l)
    ensures Serialize(Object([Field(l, w), Field(k, v)]))
         == "{" + (k + ":" + Serialize(v)) + "," + (l + ":" + Serialize(w)) + "}"
  {
    var x, y := Rendering(k, Serialize(v)), Rendering(l, Serialize(w));
    RenderedTwo(Field(l, w), Field(k, v));
    SortTwo(x, y);
    EntriesTwo(x, y);
  }

  function OneField(key: string, value: Value): Value {
    Object([Field(key, value)])
  }

  lemma OneFieldText(key: string, value: Value)
    ensures Serialize(Object([Field(key, value)])) == "{" + (key + ":" + Serialize(value)) + "}"
  {
    var fields, r := [Field(key, value)], Rendering(key, Serialize(value));
    assert fields[1..] == [] && Rendered(fields) == [r] && [r][1..] == [];
    assert Sort([r], KeyLess) == [r];
    assert Entries([r]) == [key + ":" + Serialize(value)];
  }

  /**
   * The converse fails: the text does not escape its punctuation, so two different payloads can
   * share it and a block commits to the text of its payload only.
   */
  lemma SerializationNotInjective()
    ensures var v := OneField("a", Text("1,b:2"));
            var w := Object([Field("b", Text("2")), Field("a", Text("1"))]);
            v != w && Serialize(v) == Serialize(w) == "{a:1,b:2}"
  {
    OneFieldText("a", Text("1,b:2"));
    assert "a"[0] < "b"[0];
    TwoFieldsText("a", Text("1"), "b", Text("2"));
    assert "{" + ("a" + ":" + "1") + "," + ("b" + ":" + "2") + "}" == "{a:1,b:2}";
  }
}
