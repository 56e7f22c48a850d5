/** A reader and a writer of JSON values that meet what the store assumes of theirs: the assumptions are
    consistent. The format is not JSON text, only one that can be read back. */
module JsonCodec {
  import opened Results
  import opened MetadataStore
  import opened Text

  // ---- Writing

  /** Every character is announced by a dot; a semicolon ends the text. */
  function RenderText(s: string): string {
    if s == [] then ";" else ['.', s[0]] + RenderText(s[1..])
  }

  /** A number in tallies. */
  function RenderNat(n: nat): string {
    if n == 0 then ";" else "1" + RenderNat(n - 1)
  }

  function RenderInt(n: int): string {
    if n < 0 then "-" + RenderNat(-n) else "+" + RenderNat(n)
  }

  /** Some field of an object: the same one whenever the object is the same. */
  ghost function SomeField(m: map<string, Json>): (k: string)
    requires m != map[]
    ensures k in m
  {
    assert |m| > 0;
    var k :| k in m;
    k
  }

  function Tag(j: Json): (tag: string)
    ensures |tag| == 1
  {
    match j
    case Null => "n"
    case Bool(b) => if b then "t" else "f"
    case Int(_) => "i"
    case Float(_) => "x"
    case Str(_) => "s"
    case Arr(_) => "["
    case Obj(_) => "{"
  }

  ghost function Body(j: Json): string
    decreases j, 1
  {
    match j
    case Null => ""
    case Bool(_) => ""
    case Int(n) => RenderInt(n)
    case Float(bits) => RenderNat(bits)
    case Str(s) => RenderText(s)
    case Arr(items) => RenderItems(j, items)
    case Obj(fields) => RenderFields(j, fields)
  }

  ghost function Render(j: Json): string
    decreases j, 2
  {
    Tag(j) + Body(j)
  }

  ghost function RenderItems(parent: Json, items: seq<Json>): string
    requires forall i :: 0 <= i < |items| ==> items[i] < parent
    decreases parent, 0, |items|
  {
    if items == [] then "]" else "," + (Render(items[0]) + RenderItems(parent, items[1..]))
  }

  ghost function RenderFields(parent: Json, fields: map<string, Json>): string
    requires forall k :: k in fields ==> fields[k] < parent
    decreases parent, 0, |fields|
  {
    if fields == map[] then "}" else
    var k := SomeField(fields);
    "," + (RenderText(k) + (Render(fields[k]) + RenderFields(parent, fields - {k})))
  }

  // ---- Nothing is written alike

  lemma SplitHead(c: string, x: string, a: string, d: string, y: string, b: string)
    requires |c| == |d| == 1 && (c + x) + a == (d + y) + b
    ensures c == d && x + a == y + b
  {
    var left, right := (c + x) + a, (d + y) + b;
    assert c[0] == left[0] && d[0] == right[0];
    assert left[1..] == x + a && right[1..] == y + b;
  }

  lemma Regroup(x: string, y: string, a: string)
    ensures (x + y) + a == x + (y + a)
  {}

  lemma Nothing(a: string, b: string)
    requires "" + a == "" + b
    ensures a == b
  {
    assert "" + a == a && "" + b == b;
  }

  lemma {:induction false} TextEnds(s: string, a: string, t: string, b: string)
    requires RenderText(s) + a == RenderText(t) + b
    ensures s == t && a == b
  {
    var left, right := RenderText(s) + a, RenderText(t) + b;
    assert left[0] == right[0];
    if s == [] {
      assert t == [];
      assert left[1..] == a && right[1..] == b;
    } else {
      assert t != [];
      assert left[1] == s[0] && right[1] == t[0];
      assert left[2..] == RenderText(s[1..]) + a && right[2..] == RenderText(t[1..]) + b;
      TextEnds(s[1..], a, t[1..], b);
      assert s == [s[0]] + s[1..] && t == [t[0]] + t[1..];
    }
  }

  lemma {:induction false} NatEnds(m: nat, a: string, n: nat, b: string)
    requires RenderNat(m) + a == RenderNat(n) + b
    ensures m == n && a == b
  {
    var left, right := RenderNat(m) + a, RenderNat(n) + b;
    assert left[0] == right[0];
    if m == 0 {
      assert n == 0;
      assert left[1..] == a && right[1..] == b;
    } else {
      assert n > 0;
      assert left[1..] == RenderNat(m - 1) + a && right[1..] == RenderNat(n - 1) + b;
      NatEnds(m - 1, a, n - 1, b);
    }
  }

  lemma IntEnds(m: int, a: string, n: int, b: string)
    requires RenderInt(m) + a == RenderInt(n) + b
    ensures m == n && a == b
  {
    var c, d := if m < 0 then "-" else "+", if n < 0 then "-" else "+";
    var x, y := if m < 0 then -m else m, if n < 0 then -n else n;
    SplitHead(c, RenderNat(x), a, d, RenderNat(y), b);
    assert c[0] == d[0];
    NatEnds(x, a, y, b);
  }

  /** What follows a rendering is where it ends, so a rendering determines its value. */
  lemma {:induction false} RenderEnds(j: Json, a: string, k: Json, b: string)
    requires Render(j) + a == Render(k) + b
    ensures j == k && a == b
    decreases j
  {
    SplitHead(Tag(j), Body(j), a, Tag(k), Body(k), b);
    assert Tag(j)[0] == Tag(k)[0];
    match j {
      case Null => Nothing(a, b);
      case Bool(_) => Nothing(a, b);
      case Int(n) => IntEnds(n, a, k.n, b);
      case Float(bits) => NatEnds(bits, a, k.bits, b);
      case Str(s) => TextEnds(s, a, k.s, b);
      case Arr(items) => ItemsEnd(j, items, a, k, k.items, b);
      case Obj(fields) => FieldsEnd(j, fields, a, k, k.fields, b);
    }
  }

  lemma {:induction false} ItemsEnd(p: Json, items: seq<Json>, a: string, q: Json, others: seq<Json>, b: string)
    requires forall i :: 0 <= i < |items| ==> items[i] < p
    requires forall i :: 0 <= i < |others| ==> others[i] < q
    requires RenderItems(p, items) + a == RenderItems(q, others) + b
    ensures items == others && a == b
    decreases p, |items|
  {
    if items == [] || others == [] {
      var x, y := RenderItems(p, items), RenderItems(q, others);
      assert x[0] == (x + a)[0] && y[0] == (y + b)[0];
      assert (x + a)[1..] == a && (y + b)[1..] == b;
    } else {
      var x, y := RenderItems(p, items[1..]), RenderItems(q, others[1..]);
      SplitHead(",", Render(items[0]) + x, a, ",", Render(others[0]) + y, b);
      Regroup(Render(items[0]), x, a);
      Regroup(Render(others[0]), y, b);
      RenderEnds(items[0], x + a, others[0], y + b);
      ItemsEnd(p, items[1..], a, q, others[1..], b);
      assert items == [items[0]] + items[1..] && others == [others[0]] + others[1..];
    }
  }

  lemma {:induction false} FieldsEnd(p: Json, fields: map<string, Json>, a: string,
                                     q: Json, others: map<string, Json>, b: string)
    requires forall k :: k in fields ==> fields[k] < p
    requires forall k :: k in others ==> others[k] < q
    requires RenderFields(p, fields) + a == RenderFields(q, others) + b
    ensures fields == others && a == b
    decreases p, |fields|
  {
    if fields == map[] || others == map[] {
      var x, y := RenderFields(p, fields), RenderFields(q, others);
      assert x[0] == (x + a)[0] && y[0] == (y + b)[0];
      assert (x + a)[1..] == a && (y + b)[1..] == b;
    } else {
      var k, l := SomeField(fields), SomeField(others);
      var x, y := RenderFields(p, fields - {k}), RenderFields(q, others - {l});
      FieldFront(RenderText(k), Render(fields[k]), x, a, RenderText(l), Render(others[l]), y, b);
      TextEnds(k, Render(fields[k]) + (x + a), l, Render(others[l]) + (y + b));
      RenderEnds(fields[k], x + a, others[l], y + b);
      FieldsEnd(p, fields - {k}, a, q, others - {l}, b);
      assert fields == (fields - {k})[k := fields[k]] && others == (others - {l})[l := others[l]];
    }
  }

  lemma FieldFront(t: string, v: string, x: string, a: string, u: string, w: string, y: string, b: string)
    requires ("," + (t + (v + x))) + a == ("," + (u + (w + y))) + b
    ensures t + (v + (x + a)) == u + (w + (y + b))
  {
    SplitHead(",", t + (v + x), a, ",", u + (w + y), b);
    Regroup(t, v + x, a);
    Regroup(v, x, a);
    Regroup(u, w + y, b);
    Regroup(w, y, b);
  }

  // ---- A wrapped value is longer

  lemma {:induction false} FieldIsShorter(p: Json, fields: map<string, Json>, key: string)
    requires forall k :: k in fields ==> fields[k] < p
    requires key in fields
    ensures Utf8Len(Render(fields[key])) < Utf8Len(RenderFields(p, fields))
    decreases |fields|
  {
    var k := SomeField(fields);
    var value, rest := Render(fields[k]), RenderFields(p, fields - {k});
    SizeConcat(",", RenderText(k) + (value + rest));
    SizeConcat(RenderText(k), value + rest);
    SizeConcat(value, rest);
    if k != key { FieldIsShorter(p, fields - {k}, key); }
  }

  lemma DocumentIsLonger(values: Values)
    ensures Utf8Len(Render(ValuesJson(values))) < Utf8Len(Render(DocumentJson(values)))
  {
    var document := DocumentJson(values);
    assert document.fields["values"] == ValuesJson(values);
    FieldIsShorter(document, document.fields, "values");
    SizeConcat("{", RenderFields(document, document.fields));
  }

  // ---- The codec

  ghost function Parse(text: string): Option<Json> {
    if exists j :: Render(j) == text then
      var j :| Render(j) == text;
      Some(j)
    else None
  }

  lemma ParseUndoesRender(j: Json)
    ensures Parse(Render(j)) == Some(j)
  {
    var k := Parse(Render(j)).value;
    RenderEnds(k, "", j, "");
  }

  /** There is a codec as the store assumes it. */
  lemma LawfulCodecExists()
    ensures exists c :: Lawful(c)
  {
    var c := Codec(text => Parse(text), j => Render(j));
    forall j ensures c.parse(c.render(j)) == Some(j) { ParseUndoesRender(j); }
    forall values: Values
      ensures Utf8Len(c.render(ValuesJson(values))) < Utf8Len(c.render(DocumentJson(values)))
    {
      DocumentIsLonger(values);
    }
    assert c.render(Arr([])) == "[]" && c.render(Obj(map[])) == "{}";
    assert Lawful(c);
  }
}
