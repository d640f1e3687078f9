/**
 * When the serialised text determines the payload. Values are not quoted or escaped, so this holds
 * for payloads whose own texts hold none of the punctuation the serialisation adds.
 */
module PlainPayload {
  import opened Scalars
  import opened Sorting
  import opened Serialization

  const PUNCTUATION: string := ",[]{}"

  predicate Smooth(s: string) {
    forall i | 0 <= i < |s| :: s[i] !in PUNCTUATION
  }

  predicate PlainKey(key: string) {
    Smooth(key) && ':' !in key
  }

  /** No text is empty or holds punctuation, and no key holds any or a colon. */
  ghost predicate Plain(v: Value)
    decreases v
  {
    match v
    case Text(text) => text != "" && Smooth(text)
    case Array(items) => forall i | 0 <= i < |items| :: Plain(items[i])
    case Object(fields) => DistinctKeys(fields) && AllPlain(fields)
    case _ => true
  }

  ghost predicate AllPlain(fields: seq<Field>)
    decreases fields
  {
    forall i | 0 <= i < |fields| :: PlainKey(fields[i].key) && Plain(fields[i].value)
  }

  lemma {:induction false} PlainIsWellFormed(v: Value)
    requires Plain(v)
    ensures WellFormed(v)
    decreases v
  {
    match v
    case Array(items) =>
      forall i | 0 <= i < |items| ensures WellFormed(items[i]) {
        PlainIsWellFormed(items[i]);
      }
    case Object(fields) =>
      forall i | 0 <= i < |fields| ensures WellFormed(fields[i].value) {
        PlainIsWellFormed(fields[i].value);
      }
    case _ =>
  }

  // ---- reading one value off the front of a text ----

  /** What may follow a value: nothing, or the punctuation that ends it. */
  predicate Ends(s: string) {
    s == "" || s[0] in ",]}"
  }

  /** The texts of the scalars other than numbers, dates and strings. */
  const WORDS: seq<string> := ["null", "undefined", "true", "false"]

  lemma NumberAtom(s: NumberText)
    ensures s != "" && Smooth(s) && s[|s| - 1] != 'Z' && s !in WORDS
  {
    NumberFacts(s);
    forall i | 0 <= i < |s| ensures s[i] !in PUNCTUATION {
      assert Numeric(s[i]);
    }
    assert forall i | 0 <= i < |WORDS| :: WORDS[i][0] in {'n', 'u', 't', 'f'};
  }

  lemma DateAtom(s: DateText)
    ensures s != "" && Smooth(s) && s[|s| - 1] == 'Z' && s !in WORDS
  {
    DateFacts(s);
    assert forall i | 0 <= i < |WORDS| :: WORDS[i][|WORDS[i]| - 1] != 'Z';
  }

  lemma AtomText(v: Value)
    requires IsScalar(v) && Plain(v)
    ensures Serialize(v) != "" && Smooth(Serialize(v))
  {
    match v
    case Number(printed) =>
      NumberAtom(printed);
    case Date(iso) =>
      DateAtom(iso);
    case _ =>
  }

  lemma FirstChar(v: Value)
    requires Plain(v)
    ensures Serialize(v) != ""
    ensures v.Array? <==> Serialize(v)[0] == '['
    ensures v.Object? <==> Serialize(v)[0] == '{'
    ensures Serialize(v)[0] !in ",]}"
  {
    if IsScalar(v) {
      AtomText(v);
      assert Serialize(v)[0] !in PUNCTUATION;
      assert '[' in PUNCTUATION && '{' in PUNCTUATION;
    }
  }

  lemma PeelAtom(a: string, s: string, b: string, t: string)
    requires Smooth(a) && Smooth(b) && Ends(s) && Ends(t) && a + s == b + t
    ensures a == b && s == t
  {
    var x, y := a + s, b + t;
    assert forall i | 0 <= i < |a| :: x[i] == a[i];
    assert forall i | 0 <= i < |b| :: y[i] == b[i];
    assert |a| < |x| ==> x[|a|] == s[0] && s[0] in PUNCTUATION;
    assert |b| < |y| ==> y[|b|] == t[0] && t[0] in PUNCTUATION;
    assert |a| == |b|;
    assert x[..|a|] == a && y[..|b|] == b && x[|a|..] == s && y[|b|..] == t;
  }

  lemma PeelKey(a: string, s: string, b: string, t: string)
    requires ':' !in a && ':' !in b && a + ":" + s == b + ":" + t
    ensures a == b && s == t
  {
    var x, y := a + ":" + s, b + ":" + t;
    assert x[|a|] == ':' && y[|b|] == ':';
    assert forall i | 0 <= i < |a| :: x[i] == a[i];
    assert forall i | 0 <= i < |b| :: y[i] == b[i];
    assert |a| == |b|;
    assert x[..|a|] == a && y[..|b|] == b && x[|a| + 1..] == s && y[|b| + 1..] == t;
  }

  function ItemsText(items: seq<Value>, tail: string): string {
    Join(SerializeAll(items), ",") + tail
  }

  lemma ItemsFirst(items: seq<Value>, tail: string)
    requires items != []
    ensures ItemsText(items, tail)
         == Serialize(items[0]) + (if |items| == 1 then tail else "," + ItemsText(items[1..], tail))
  {
    var parts := SerializeAll(items);
    assert parts[1..] == SerializeAll(items[1..]);
  }

  function FieldsText(fields: seq<Field>, tail: string): string {
    Join(Entries(Rendered(fields)), ",") + tail
  }

  lemma FieldsFirst(fields: seq<Field>, tail: string)
    requires fields != []
    ensures FieldsText(fields, tail)
         == fields[0].key + ":"
            + (Serialize(fields[0].value) + (if |fields| == 1 then tail else "," + FieldsText(fields[1..], tail)))
  {
    var entries := Entries(Rendered(fields));
    assert Rendered(fields)[1..] == Rendered(fields[1..]);
    assert entries[1..] == Entries(Rendered(fields[1..]));
    EntriesLength(Rendered(fields[1..]));
  }

  lemma {:induction false} EntriesLength(rendered: seq<Rendering>)
    ensures |Entries(rendered)| == |rendered|
  {
    if rendered != [] {
      EntriesLength(rendered[1..]);
    }
  }

  // ---- the fields in the order they are written ----

  lemma {:induction false} SortedFields(fields: seq<Field>) returns (sorted: seq<Field>)
    ensures Rendered(sorted) == Sort(Rendered(fields), KeyLess)
    ensures forall x :: x in sorted <==> x in fields
  {
    if fields == [] {
      sorted := [];
    } else {
      var rest := SortedFields(fields[1..]);
      assert Rendered(fields)[1..] == Rendered(fields[1..]);
      sorted := InsertField(fields[0], rest);
      assert fields == [fields[0]] + fields[1..];
    }
  }

  lemma {:induction false} InsertField(x: Field, fields: seq<Field>) returns (r: seq<Field>)
    ensures Rendered(r) == Insert(Rendering(x.key, Serialize(x.value)), Rendered(fields), KeyLess)
    ensures forall y :: y in r <==> y == x || y in fields
  {
    var first := Rendering(x.key, Serialize(x.value));
    if fields == [] || KeyLess(first, Rendered(fields)[0]) {
      r := [x] + fields;
      assert Rendered(r) == [first] + Rendered(fields);
    } else {
      var rest := InsertField(x, fields[1..]);
      assert Rendered(fields)[1..] == Rendered(fields[1..]);
      r := [fields[0]] + rest;
      assert Rendered(r) == [Rendered(fields)[0]] + Rendered(rest);
      assert fields == [fields[0]] + fields[1..];
    }
  }

  lemma ObjectText(fields: seq<Field>, sorted: seq<Field>, s: string)
    requires Rendered(sorted) == Sort(Rendered(fields), KeyLess)
    ensures Serialize(Object(fields)) + s == "{" + FieldsText(sorted, "}" + s)
  {
  }

  lemma ArrayText(items: seq<Value>, s: string)
    ensures Serialize(Array(items)) + s == "[" + ItemsText(items, "]" + s)
  {
  }

  // ---- the text determines the payload ----

  /** Two plain values at the front of the same text are the same up to key order and kinds. */
  lemma {:induction false} ReadOff(v: Value, w: Value, s: string, t: string)
    requires Plain(v) && Plain(w) && Ends(s) && Ends(t) && Serialize(v) + s == Serialize(w) + t
    ensures s == t && SameUpToKinds(v, w)
    decreases |Serialize(v) + s|, 1
  {
    FirstChar(v);
    FirstChar(w);
    assert (Serialize(v) + s)[0] == Serialize(v)[0] && (Serialize(w) + t)[0] == Serialize(w)[0];
    match v
    case Array(items) =>
      ArrayText(items, s);
      ArrayText(w.items, t);
      DropFirst('[', ItemsText(items, "]" + s), ItemsText(w.items, "]" + t));
      ReadItems(items, w.items, s, t);
    case Object(fields) =>
      ReadObject(fields, w.fields, s, t);
    case _ =>
      AtomText(v);
      AtomText(w);
      PeelAtom(Serialize(v), s, Serialize(w), t);
  }

  lemma DropFirst(c: char, x: string, y: string)
    requires [c] + x == [c] + y
    ensures x == y
  {
    assert ([c] + x)[1..] == x && ([c] + y)[1..] == y;
  }

  lemma ItemsStart(items: seq<Value>, tail: string)
    requires items != [] && Plain(items[0])
    ensures ItemsText(items, tail) != "" && ItemsText(items, tail)[0] != ']'
  {
    ItemsFirst(items, tail);
    FirstChar(items[0]);
  }

  lemma {:induction false} ReadItems(a: seq<Value>, b: seq<Value>, s: string, t: string)
    requires (forall i | 0 <= i < |a| :: Plain(a[i])) && (forall i | 0 <= i < |b| :: Plain(b[i]))
    requires ItemsText(a, "]" + s) == ItemsText(b, "]" + t)
    ensures s == t && |a| == |b| && forall i | 0 <= i < |a| :: SameUpToKinds(a[i], b[i])
    decreases |ItemsText(a, "]" + s)|, 2
  {
    if a == [] || b == [] {
      if a != [] { ItemsStart(a, "]" + s); }
      if b != [] { ItemsStart(b, "]" + t); }
      assert a == [] ==> ItemsText(a, "]" + s) == "]" + s;
      assert b == [] ==> ItemsText(b, "]" + t) == "]" + t;
      DropFirst(']', s, t);
    } else {
      ItemsFirst(a, "]" + s);
      ItemsFirst(b, "]" + t);
      FirstChar(a[0]);
      var x := if |a| == 1 then "]" + s else "," + ItemsText(a[1..], "]" + s);
      var y := if |b| == 1 then "]" + t else "," + ItemsText(b[1..], "]" + t);
      ReadOff(a[0], b[0], x, y);
      assert x[0] == y[0];
      if |a| == 1 {
        DropFirst(']', s, t);
      } else {
        DropFirst(',', ItemsText(a[1..], "]" + s), ItemsText(b[1..], "]" + t));
        ReadItems(a[1..], b[1..], s, t);
        assert forall i | 0 < i < |a| :: a[i] == a[1..][i - 1] && b[i] == b[1..][i - 1];
      }
    }
  }

  lemma {:induction false} ReadObject(f: seq<Field>, g: seq<Field>, s: string, t: string)
    requires Plain(Object(f)) && Plain(Object(g))
    requires Serialize(Object(f)) + s == Serialize(Object(g)) + t
    ensures s == t && SameUpToKinds(Object(f), Object(g))
    decreases |Serialize(Object(f)) + s|, 0
  {
    var p := SortedFields(f);
    var q := SortedFields(g);
    ObjectText(f, p, s);
    ObjectText(g, q, t);
    DropFirst('{', FieldsText(p, "}" + s), FieldsText(q, "}" + t));
    SamePlain(f, p);
    SamePlain(g, q);
    ReadFields(p, q, s, t);
    FieldsCorrespond(f, g, p, q);
  }

  ghost predicate Matched(x: Field, y: Field) {
    x.key == y.key && SameUpToKinds(x.value, y.value)
  }

  /** The partner of a field in the other object. */
  lemma Partner(f: seq<Field>, g: seq<Field>, p: seq<Field>, q: seq<Field>, i: nat) returns (j: nat)
    requires (forall x :: x in p <==> x in f) && (forall x :: x in q <==> x in g)
    requires |p| == |q| && i < |f|
    ensures j < |g| && exists k | 0 <= k < |p| :: p[k] == f[i] && q[k] == g[j]
  {
    assert f[i] in p;
    var k :| 0 <= k < |p| && p[k] == f[i];
    assert q[k] in g;
    j :| 0 <= j < |g| && g[j] == q[k];
  }

  lemma FieldsCorrespond(f: seq<Field>, g: seq<Field>, p: seq<Field>, q: seq<Field>)
    requires (forall x :: x in p <==> x in f) && (forall x :: x in q <==> x in g)
    requires |p| == |q| && forall i | 0 <= i < |p| :: Matched(p[i], q[i])
    ensures Covers(f, g, false) && CoveredBy(f, g, false)
  {
    forall i | 0 <= i < |f| ensures OccursIn(f[i], g, false) {
      var j := Partner(f, g, p, q, i);
      assert Matched(f[i], g[j]);
    }
    forall j | 0 <= j < |g| ensures Contains(f, g[j], false) {
      var i := Partner(g, f, q, p, j);
      assert Matched(f[i], g[j]);
    }
  }

  lemma SamePlain(fields: seq<Field>, others: seq<Field>)
    requires AllPlain(fields) && forall x :: x in others <==> x in fields
    ensures AllPlain(others)
  {
    forall i | 0 <= i < |others| ensures PlainKey(others[i].key) && Plain(others[i].value) {
      assert others[i] in fields;
    }
  }

  lemma FieldsStart(fields: seq<Field>, tail: string)
    requires fields != [] && AllPlain(fields)
    ensures FieldsText(fields, tail) != "" && FieldsText(fields, tail)[0] != '}'
  {
    FieldsFirst(fields, tail);
    var key := fields[0].key;
    assert key != "" ==> FieldsText(fields, tail)[0] == key[0] && key[0] !in PUNCTUATION;
    assert '}' in PUNCTUATION;
  }

  lemma {:induction false} ReadFields(f: seq<Field>, g: seq<Field>, s: string, t: string)
    requires AllPlain(f) && AllPlain(g)
    requires FieldsText(f, "}" + s) == FieldsText(g, "}" + t)
    ensures s == t && |f| == |g|
    ensures forall i | 0 <= i < |f| :: Matched(f[i], g[i])
    decreases |FieldsText(f, "}" + s)|, 2
  {
    if f == [] || g == [] {
      if f != [] { FieldsStart(f, "}" + s); }
      if g != [] { FieldsStart(g, "}" + t); }
      assert f == [] ==> FieldsText(f, "}" + s) == "}" + s;
      assert g == [] ==> FieldsText(g, "}" + t) == "}" + t;
      DropFirst('}', s, t);
    } else {
      FieldsFirst(f, "}" + s);
      FieldsFirst(g, "}" + t);
      var x := if |f| == 1 then "}" + s else "," + FieldsText(f[1..], "}" + s);
      var y := if |g| == 1 then "}" + t else "," + FieldsText(g[1..], "}" + t);
      PeelKey(f[0].key, Serialize(f[0].value) + x, g[0].key, Serialize(g[0].value) + y);
      FirstChar(f[0].value);
      ReadOff(f[0].value, g[0].value, x, y);
      assert x[0] == y[0];
      if |f| == 1 {
        DropFirst('}', s, t);
      } else {
        DropFirst(',', FieldsText(f[1..], "}" + s), FieldsText(g[1..], "}" + t));
        ReadFields(f[1..], g[1..], s, t);
        assert forall i | 0 < i < |f| :: f[i] == f[1..][i - 1] && g[i] == g[1..][i - 1];
      }
    }
  }

  // ---- the kinds of the scalars ----

  /** The text of some scalar that is not a string. */
  predicate SpellsScalar(text: string) {
    text in WORDS || IsNumberText(text) || IsDateText(text)
  }

  lemma SpellsScalarIff(text: string)
    ensures SpellsScalar(text) <==> exists v :: IsScalar(v) && v != Text(text) && Serialize(v) == text
  {
    if SpellsScalar(text) {
      var v := if text == "null" then Null else if text == "undefined" then Undefined
               else if text == "true" then Boolean(true) else if text == "false" then Boolean(false)
               else if IsNumberText(text) then Number(text) else Date(text);
      assert IsScalar(v) && v != Text(text) && Serialize(v) == text;
    }
  }

  /** No string in the payload spells another scalar. */
  ghost predicate Unspelled(v: Value)
    decreases v
  {
    match v
    case Text(text) => !SpellsScalar(text)
    case Array(items) => forall i | 0 <= i < |items| :: Unspelled(items[i])
    case Object(fields) => AllUnspelled(fields)
    case _ => true
  }

  ghost predicate AllUnspelled(fields: seq<Field>)
    decreases fields
  {
    forall i | 0 <= i < |fields| :: Unspelled(fields[i].value)
  }

  lemma NotAString(v: Value)
    requires IsScalar(v) && !v.Text?
    ensures SpellsScalar(Serialize(v))
  {
  }

  /** Dates end in Z, and neither they nor numbers print as a word. */
  lemma KindOfText(v: Value)
    requires IsScalar(v) && !v.Text?
    ensures v.Number? || v.Date? <==> Serialize(v) !in WORDS
    ensures Serialize(v) != "" && (v.Date? <==> Serialize(v)[|Serialize(v)| - 1] == 'Z')
  {
    match v
    case Number(printed) =>
      NumberAtom(printed);
    case Date(iso) =>
      DateAtom(iso);
    case _ =>
  }

  lemma KindFromText(v: Value, w: Value)
    requires IsScalar(v) && IsScalar(w) && Unspelled(v) && Unspelled(w) && Serialize(v) == Serialize(w)
    ensures v == w
  {
    if v.Text? || w.Text? {
      if !v.Text? { NotAString(v); }
      if !w.Text? { NotAString(w); }
    } else {
      KindOfText(v);
      KindOfText(w);
    }
  }

  lemma {:induction false} KindsRecovered(v: Value, w: Value)
    requires Unspelled(v) && Unspelled(w) && SameUpToKinds(v, w)
    ensures SameUpToKeyOrder(v, w)
    decreases v, 1
  {
    match (v, w)
    case (Array(a), Array(b)) =>
      forall i | 0 <= i < |a| ensures SameUpToKeyOrder(a[i], b[i]) {
        KindsRecovered(a[i], b[i]);
      }
    case (Object(f), Object(g)) =>
      assert Covers(f, g, false) && CoveredBy(f, g, false);
      forall i | 0 <= i < |f| ensures OccursIn(f[i], g, true) {
        assert OccursIn(f[i], g, false);
        var j :| 0 <= j < |g| && f[i].key == g[j].key && Same(f[i].value, g[j].value, false);
        KindsRecovered(f[i].value, g[j].value);
      }
      forall j | 0 <= j < |g| ensures Contains(f, g[j], true) {
        assert Contains(f, g[j], false);
        var i :| 0 <= i < |f| && f[i].key == g[j].key && Same(f[i].value, g[j].value, false);
        KindsRecovered(f[i].value, g[j].value);
      }
    case _ =>
      KindFromText(v, w);
  }

  /**
   * Among plain payloads the text determines the payload up to key order and the kinds of its
   * scalars, and no more; among those whose strings spell no other scalar, up to key order.
   */
  lemma TextDeterminesPayload(v: Value, w: Value)
    requires Plain(v) && Plain(w)
    ensures Serialize(v) == Serialize(w) <==> SameUpToKinds(v, w)
    ensures Unspelled(v) && Unspelled(w) ==> (Serialize(v) == Serialize(w) <==> SameUpToKeyOrder(v, w))
  {
    PlainIsWellFormed(v);
    PlainIsWellFormed(w);
    if Serialize(v) == Serialize(w) {
      ReadOff(v, w, "", "");
      if Unspelled(v) && Unspelled(w) {
        KindsRecovered(v, w);
      }
    }
    if SameUpToKinds(v, w) {
      SameText(v, w, false);
    }
    if SameUpToKeyOrder(v, w) {
      KeyOrderIrrelevant(v, w);
    }
  }

  /** Another scalar in the place of a string that spells it. */
  lemma OtherScalar(text: string) returns (w: Value)
    requires SpellsScalar(text) && Plain(Text(text))
    ensures IsScalar(w) && Plain(w) && w != Text(text) && Serialize(w) == text
  {
    SpellsScalarIff(text);
    w :| IsScalar(w) && w != Text(text) && Serialize(w) == text;
  }

  lemma ReplacedItem(items: seq<Value>, i: nat, item: Value)
    requires Plain(Array(items)) && i < |items| && Plain(item)
    requires Serialize(item) == Serialize(items[i]) && !SameUpToKeyOrder(items[i], item)
    ensures var w := Array(items[i := item]);
      Plain(w) && Serialize(Array(items)) == Serialize(w) && !SameUpToKeyOrder(Array(items), w)
  {
    var b := items[i := item];
    assert SerializeAll(items) == SerializeAll(b);
    assert !Same(items[i], b[i], true);
  }

  lemma ReplacedIsPlain(f: seq<Field>, g: seq<Field>, i: nat)
    requires DistinctKeys(f) && AllPlain(f) && i < |f| == |g|
    requires g[i].key == f[i].key && Plain(g[i].value) && forall j | 0 <= j < |f| && j != i :: g[j] == f[j]
    ensures DistinctKeys(g) && AllPlain(g)
  {
    forall j, k | 0 <= j < k < |g| ensures g[j].key != g[k].key {
      assert f[j].key != f[k].key;
    }
    forall j | 0 <= j < |g| ensures PlainKey(g[j].key) && Plain(g[j].value) {
      assert PlainKey(f[j].key) && Plain(f[j].value);
    }
  }

  lemma ReplacedDiffers(f: seq<Field>, g: seq<Field>, i: nat)
    requires DistinctKeys(g) && i < |f| == |g| && g[i].key == f[i].key && !SameUpToKeyOrder(f[i].value, g[i].value)
    ensures !SameUpToKeyOrder(Object(f), Object(g))
  {
    forall j | 0 <= j < |g| && f[i].key == g[j].key ensures !Same(f[i].value, g[j].value, true) {
      assert j == i;
    }
    assert !OccursIn(f[i], g, true);
    assert !Covers(f, g, true);
  }

  lemma SameRendered(f: seq<Field>, g: seq<Field>)
    requires |f| == |g|
    requires forall i | 0 <= i < |f| :: f[i].key == g[i].key && Serialize(f[i].value) == Serialize(g[i].value)
    ensures Serialize(Object(f)) == Serialize(Object(g))
  {
    assert Rendered(f) == Rendered(g);
  }

  lemma ReplacedField(fields: seq<Field>, i: nat, value: Value)
    requires Plain(Object(fields)) && i < |fields| && Plain(value)
    requires Serialize(value) == Serialize(fields[i].value) && !SameUpToKeyOrder(fields[i].value, value)
    ensures var w := Object(fields[i := Field(fields[i].key, value)]);
      Plain(w) && Serialize(Object(fields)) == Serialize(w) && !SameUpToKeyOrder(Object(fields), w)
  {
    var g := fields[i := Field(fields[i].key, value)];
    SameRendered(fields, g);
    ReplacedIsPlain(fields, g, i);
    ReplacedDiffers(fields, g, i);
  }

  /**
   * Every plain payload with a string that spells another scalar, at any depth, shares its text with
   * another plain payload, so none of them could be kept in.
   */
  lemma {:induction false} SpelledCollides(v: Value) returns (w: Value)
    requires Plain(v) && !Unspelled(v)
    ensures Plain(w) && Serialize(v) == Serialize(w) && !SameUpToKeyOrder(v, w)
    decreases v
  {
    match v
    case Text(text) =>
      w := OtherScalar(text);
    case Array(items) =>
      var i :| 0 <= i < |items| && !Unspelled(items[i]);
      var item := SpelledCollides(items[i]);
      w := Array(items[i := item]);
      ReplacedItem(items, i, item);
    case Object(fields) =>
      var i :| 0 <= i < |fields| && !Unspelled(fields[i].value);
      var value := SpelledCollides(fields[i].value);
      w := Object(fields[i := Field(fields[i].key, value)]);
      ReplacedField(fields, i, value);
  }

  /** Fields that differ only in the kind of their scalar give different plain payloads with one text. */
  lemma KindsCollide(key: string, v: Value, w: Value)
    requires PlainKey(key) && Plain(v) && Plain(w) && IsScalar(v) && IsScalar(w)
    requires v != w && Serialize(v) == Serialize(w)
    ensures var x, y := OneField(key, v), OneField(key, w);
      Plain(x) && Plain(y) && Serialize(x) == Serialize(y) && !SameUpToKeyOrder(x, y)
  {
    OneFieldText(key, v);
    OneFieldText(key, w);
    var f, g := [Field(key, v)], [Field(key, w)];
    assert f[0].value == v && g[0].value == w;
    assert !OccursIn(f[0], g, true);
    assert !Covers(f, g, true);
  }

  const ONE: NumberText := "1"

  /** The number of options in a vote's payload shares its text with the string that spells it. */
  lemma OptionCountCollides()
    ensures var count, said := OneField("optionCount", Number(ONE)), OneField("optionCount", Text("1"));
      Plain(count) && Plain(said) && Serialize(count) == Serialize(said) && !SameUpToKeyOrder(count, said)
  {
    KindsCollide("optionCount", Number(ONE), Text("1"));
  }

  /** So does the abstention flag. */
  lemma AbstentionFlagCollides()
    ensures var no, said := OneField("isAbstention", Boolean(false)), OneField("isAbstention", Text("false"));
      Plain(no) && Plain(said) && Serialize(no) == Serialize(said) && !SameUpToKeyOrder(no, said)
  {
    KindsCollide("isAbstention", Boolean(false), Text("false"));
  }

  /** What is not plain does collide: an empty text, and punctuation in a text. */
  lemma ImpurePayloadsCollide()
    ensures Serialize(Array([Text("")])) == Serialize(Array([])) == Serialize(Text("[]")) == "[]"
  {
    assert SerializeAll([Text("")]) == [""];
  }

  /** A colon in a key collides with one in a text. */
  lemma KeyColonCollides()
    ensures Serialize(Object([Field("a:b", Text("c"))])) == Serialize(Object([Field("a", Text("b:c"))]))
  {
    OneFieldText("a:b", Text("c"));
    OneFieldText("a", Text("b:c"));
    assert "a:b" + ":" + "c" == "a" + ":" + "b:c";
  }
}
