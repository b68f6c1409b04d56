/** A formatted print is the unformatted one laid out.

    LayOut reads the unformatted text char by char and inserts the white space: the formatted
    print has one member to a line, indented by a tab for every container around it. */
module Layout {
  import opened Json
  import opened Numbers
  import opened Printing
  import opened StringMeaning
  import opened Text

  /** A text inside these brackets, the innermost last. */
  function LayOut(t: string, open: string): string
    decreases |t|
  {
    if t == [] then []
    else
      match t[0]
      case '"' => "\"" + LayOutString(t[1..], open)
      case '[' => "[" + LayOut(t[1..], open + "[")
      case ']' => "]" + LayOut(t[1..], Outer(open))
      case '{' =>
        if |t| > 1 && t[1] == '}' then "{\n" + Tabs(|open|) + "}" + LayOut(t[2..], open)
        else "{\n" + Tabs(|open| + 1) + LayOut(t[1..], open + "{")
      case '}' => "\n" + Tabs(|Outer(open)|) + "}" + LayOut(t[1..], Outer(open))
      case ':' => ":\t" + LayOut(t[1..], open)
      case ',' => (if open != [] && open[|open| - 1] == '{' then ",\n" + Tabs(|open|) else ", ") + LayOut(t[1..], open)
      case c => [c] + LayOut(t[1..], open)
  }

  /** Up to the quote that ends a string. */
  function LayOutString(t: string, open: string): string
    decreases |t|
  {
    if t == [] then []
    else if t[0] == '"' then "\"" + LayOut(t[1..], open)
    else if t[0] == '\\' && |t| > 1 then t[..2] + LayOutString(t[2..], open)
    else [t[0]] + LayOutString(t[1..], open)
  }

  function Outer(open: string): string { if open == [] then [] else open[..|open| - 1] }

  /** w is laid out as v, whatever follows. */
  ghost predicate Lays(w: string, v: string, open: string) {
    forall rest :: LayOut(w + rest, open) == v + LayOut(rest, open)
  }

  lemma {:induction false} LaysBoth(a: string, x: string, b: string, y: string, open: string)
    requires Lays(a, x, open) && Lays(b, y, open)
    ensures Lays(a + b, x + y, open)
  {
    forall rest
      ensures LayOut((a + b) + rest, open) == (x + y) + LayOut(rest, open)
    {
      Regroup(a, b, rest);
      Regroup(x, y, LayOut(rest, open));
      assert LayOut(a + (b + rest), open) == x + LayOut(b + rest, open);
    }
  }

  lemma {:induction false} LaysNothing(open: string)
    ensures Lays("", "", open)
  {
    forall rest
      ensures LayOut("" + rest, open) == "" + LayOut(rest, open)
    {
      assert "" + rest == rest && "" + LayOut(rest, open) == LayOut(rest, open);
    }
  }

  // ----- values without children

  predicate IsKept(c: char) {
    c != '"' && c != '[' && c != ']' && c != '{' && c != '}' && c != ':' && c != ','
  }

  lemma {:induction false} CharLays(c: char, open: string)
    ensures IsKept(c) ==> Lays([c], [c], open)
    ensures Lays(":", ":\t", open)
    ensures Lays(",", if open != [] && open[|open| - 1] == '{' then ",\n" + Tabs(|open|) else ", ", open)
  {
    forall rest
      ensures IsKept(c) ==> LayOut([c] + rest, open) == [c] + LayOut(rest, open)
      ensures LayOut(":" + rest, open) == ":\t" + LayOut(rest, open)
      ensures LayOut("," + rest, open) ==
              (if open != [] && open[|open| - 1] == '{' then ",\n" + Tabs(|open|) else ", ") + LayOut(rest, open)
    {
      assert ([c] + rest)[1..] == rest && (":" + rest)[1..] == rest && ("," + rest)[1..] == rest;
    }
  }

  lemma {:induction false} TextLays(w: string, open: string)
    requires forall i :: 0 <= i < |w| ==> IsKept(w[i])
    ensures Lays(w, w, open)
    decreases |w|
  {
    if w == [] {
      LaysNothing(open);
    } else {
      CharLays(w[0], open);
      TextLays(w[1..], open);
      LaysBoth([w[0]], [w[0]], w[1..], w[1..], open);
      assert [w[0]] + w[1..] == w;
    }
  }

  /** An escaped char is copied. */
  lemma {:induction false} EscapeLays(x: char, tail: string, open: string)
    ensures LayOutString(EscapeChar(x) + tail, open) == EscapeChar(x) + LayOutString(tail, open)
  {
    var w, s := EscapeChar(x), EscapeChar(x) + tail;
    assert s[0] == w[0] && s[|w|..] == tail;
    if |w| == 2 {
      assert s[..2] == w && s[2..] == tail;
    } else if |w| == 6 {
      UnitLays(w, tail, open);
    }
  }

  lemma {:induction false} UnitLays(w: string, tail: string, open: string)
    requires |w| == 6 && w[0] == '\\' && forall k :: 2 <= k < 6 ==> w[k] != '"' && w[k] != '\\'
    ensures LayOutString(w + tail, open) == w + LayOutString(tail, open)
  {
    var s := w + tail;
    assert s[..2] == w[..2] && s[2..] == w[2..] + tail;
    PlainLays(w[2..], tail, open);
    Regroup(w[..2], w[2..], LayOutString(tail, open));
    assert w[..2] + w[2..] == w;
  }

  lemma {:induction false} PlainLays(w: string, tail: string, open: string)
    requires forall k :: 0 <= k < |w| ==> w[k] != '"' && w[k] != '\\'
    ensures LayOutString(w + tail, open) == w + LayOutString(tail, open)
    decreases |w|
  {
    if w == [] {
      assert w + tail == tail && w + LayOutString(tail, open) == LayOutString(tail, open);
    } else {
      assert (w + tail)[1..] == w[1..] + tail && [w[0]] + w[1..] == w;
      PlainLays(w[1..], tail, open);
      Regroup([w[0]], w[1..], LayOutString(tail, open));
    }
  }

  lemma {:induction false} StringLays(s: string, tail: string, open: string)
    ensures LayOutString(Escape(s) + tail, open) == Escape(s) + LayOutString(tail, open)
    decreases |s|
  {
    if s == [] {
      assert Escape(s) + tail == tail && Escape(s) + LayOutString(tail, open) == LayOutString(tail, open);
    } else {
      var w, more := EscapeChar(s[0]), Escape(s[1..]);
      Regroup(w, more, tail);
      EscapeLays(s[0], more + tail, open);
      StringLays(s[1..], tail, open);
      Regroup(w, more, LayOutString(tail, open));
    }
  }

  lemma {:induction false} QuotedLays(s: string, open: string)
    ensures Lays(Quoted(s), Quoted(s), open)
  {
    forall rest
      ensures LayOut(Quoted(s) + rest, open) == Quoted(s) + LayOut(rest, open)
    {
      QuotedText(s, rest, open, Escape(s));
    }
  }

  lemma {:induction false} QuotedText(s: string, rest: string, open: string, w: string)
    requires w == Escape(s)
    ensures LayOut(Quoted(s) + rest, open) == Quoted(s) + LayOut(rest, open)
  {
    var tail := "\"" + rest;
    StringLays(s, tail, open);
    QuoteJoins(w, rest);
    QuoteOpens("\"" + (w + tail), w + tail, open);
    QuoteCloses(tail, rest, open);
    QuoteJoins(w, LayOut(rest, open));
  }

  lemma {:induction false} QuoteJoins(w: string, rest: string)
    ensures ("\"" + w + "\"") + rest == "\"" + (w + ("\"" + rest))
  {
  }

  lemma {:induction false} QuoteOpens(s: string, inner: string, open: string)
    requires s == "\"" + inner
    ensures LayOut(s, open) == "\"" + LayOutString(inner, open)
  {
    assert s[0] == '"';
    assert s[1..] == inner;
  }

  lemma {:induction false} QuoteCloses(s: string, rest: string, open: string)
    requires s == "\"" + rest
    ensures LayOutString(s, open) == "\"" + LayOut(rest, open)
  {
    assert s[0] == '"';
    assert s[1..] == rest;
  }

  // ----- values

  lemma {:induction false} ValueLays(j: JSON, d: nat, e: nat, open: string)
    requires |open| == d
    ensures Lays(Render(j, false, e), Render(j, true, d), open)
    decreases j, 2
  {
    match j
    case Number(n) =>
      DecimalDigits(if n < 0 then -n else n);
      TextLays(Signed(n), open);
    case Str(s) => QuotedLays(s, open);
    case Array(items) => ArrayLays(items, d, e, open);
    case Object(members) => ObjectLays(members, d, e, open);
    case _ => TextLays(Render(j, false, e), open);
  }

  lemma {:induction false} ArrayLays(items: seq<JSON>, d: nat, e: nat, open: string)
    requires |open| == d
    ensures Lays(Render(Array(items), false, e), Render(Array(items), true, d), open)
    decreases items, 1
  {
    var w, v := RenderItems(items, false, e + 1), RenderItems(items, true, d + 1);
    ItemsLay(items, d + 1, e + 1, open + "[");
    forall rest
      ensures LayOut(("[" + w + "]") + rest, open) == ("[" + v + "]") + LayOut(rest, open)
    {
      InArray(w, v, rest, open);
    }
  }

  lemma {:induction false} InArray(w: string, v: string, rest: string, open: string)
    requires Lays(w, v, open + "[")
    ensures LayOut(("[" + w + "]") + rest, open) == ("[" + v + "]") + LayOut(rest, open)
  {
    var inner, tail := open + "[", "]" + rest;
    assert ("[" + w + "]") + rest == "[" + (w + tail);
    assert ("[" + (w + tail))[1..] == w + tail;
    assert LayOut(w + tail, inner) == v + LayOut(tail, inner);
    assert Outer(inner) == open && tail[1..] == rest;
    assert ("[" + v + "]") + LayOut(rest, open) == "[" + (v + ("]" + LayOut(rest, open)));
  }

  lemma {:induction false} ItemsLay(items: seq<JSON>, d: nat, e: nat, open: string)
    requires |open| == d > 0 && open[d - 1] == '['
    ensures Lays(RenderItems(items, false, e), RenderItems(items, true, d), open)
    decreases items, 0
  {
    if items == [] {
      LaysNothing(open);
    } else {
      var last := |items| == 1;
      ValueLays(items[0], d, e, open);
      ItemsLay(items[1..], d, e, open);
      if last { LaysNothing(open); } else { CharLays(',', open); }
      LaysBoth(Render(items[0], false, e), Render(items[0], true, d), ItemEnd(false, last), ItemEnd(true, last), open);
      LaysBoth(Render(items[0], false, e) + ItemEnd(false, last), Render(items[0], true, d) + ItemEnd(true, last),
               RenderItems(items[1..], false, e), RenderItems(items[1..], true, d), open);
    }
  }

  /** The formatted members without the first indentation and the last line break. */
  function Body(members: seq<Member>, d: nat): string
    requires members != []
    decreases members
  {
    Quoted(members[0].key) + ":\t" + Render(members[0].value, true, d) +
    if |members| == 1 then [] else ",\n" + Tabs(d) + Body(members[1..], d)
  }

  lemma {:induction false} BodyIs(members: seq<Member>, d: nat)
    requires members != []
    ensures RenderMembers(members, true, d) == Tabs(d) + (Body(members, d) + "\n")
    decreases members
  {
    var first := Quoted(members[0].key) + ":\t" + Render(members[0].value, true, d);
    if |members| == 1 {
      assert RenderMembers(members[1..], true, d) == [];
      assert RenderMembers(members, true, d) == Tabs(d) + (first + [] + "\n");
    } else {
      BodyIs(members[1..], d);
      BodyJoins(Tabs(d), Quoted(members[0].key), Render(members[0].value, true, d), Body(members[1..], d));
    }
  }

  lemma {:induction false} BodyJoins(tabs: string, key: string, value: string, more: string)
    ensures tabs + key + ":\t" + value + ("," + "\n") + (tabs + (more + "\n")) ==
            tabs + ((key + ":\t" + value + (",\n" + tabs + more)) + "\n")
  {
  }

  lemma {:induction false} MembersLay(members: seq<Member>, d: nat, e: nat, open: string)
    requires members != [] && |open| == d > 0 && open[d - 1] == '{'
    ensures Lays(RenderMembers(members, false, e), Body(members, d), open)
    decreases members, 0
  {
    var m := members[0];
    var key, w, v := Quoted(m.key), Render(m.value, false, e), Render(m.value, true, d);
    ValueLays(m.value, d, e, open);
    MemberLays(m.key, key, w, v, open);
    if |members| == 1 {
      assert [] + key + ":" + w + ([] + []) + [] == key + ":" + w && key + ":\t" + v + [] == key + ":\t" + v;
      assert RenderMembers(members[1..], false, e) == [];
    } else {
      MembersLay(members[1..], d, e, open);
      MoreLay(key + ":" + w, key + ":\t" + v, RenderMembers(members[1..], false, e), Body(members[1..], d), d, open);
      FlatJoins(key, w, RenderMembers(members[1..], false, e));
    }
  }

  lemma {:induction false} FlatJoins(key: string, w: string, rest: string)
    ensures [] + key + ":" + w + ("," + []) + rest == key + ":" + w + ("," + rest)
  {
  }

  lemma {:induction false} MemberLays(name: string, key: string, w: string, v: string, open: string)
    requires key == Quoted(name) && Lays(w, v, open)
    ensures Lays(key + ":" + w, key + ":\t" + v, open)
  {
    QuotedLays(name, open);
    CharLays(',', open);
    LaysBoth(key, key, ":", ":\t", open);
    LaysBoth(key + ":", key + ":\t", w, v, open);
  }

  /** A comma and the other members. */
  lemma {:induction false} MoreLay(first: string, laid: string, rest: string, more: string, d: nat, open: string)
    requires Lays(first, laid, open) && Lays(rest, more, open) && |open| == d > 0 && open[d - 1] == '{'
    ensures Lays(first + ("," + rest), laid + (",\n" + Tabs(d) + more), open)
  {
    CharLays(',', open);
    LaysBoth(",", ",\n" + Tabs(d), rest, more, open);
    LaysBoth(first, laid, "," + rest, ",\n" + Tabs(d) + more, open);
  }

  lemma {:induction false} ObjectLays(members: seq<Member>, d: nat, e: nat, open: string)
    requires |open| == d
    ensures Lays(Render(Object(members), false, e), Render(Object(members), true, d), open)
    decreases members, 1
  {
    var w := RenderMembers(members, false, e + 1);
    if members != [] {
      MembersLay(members, d + 1, e + 1, open + "{");
      BodyIs(members, d + 1);
    }
    forall rest
      ensures LayOut(("{" + w + [] + "}") + rest, open) == Render(Object(members), true, d) + LayOut(rest, open)
    {
      if members == [] {
        InEmpty(rest, open);
      } else {
        MembersStart(members[0], w);
        InObject(w, Body(members, d + 1), rest, open);
      }
    }
  }

  lemma {:induction false} MembersStart(m: Member, w: string)
    requires Quoted(m.key) <= w
    ensures w != [] && w[0] == '"'
  {
  }

  lemma {:induction false} InEmpty(rest: string, open: string)
    ensures LayOut(("{" + [] + [] + "}") + rest, open) == ("{\n" + [] + Tabs(|open|) + "}") + LayOut(rest, open)
  {
    assert ("{" + [] + [] + "}") + rest == "{}" + rest;
    assert ("{}" + rest)[2..] == rest;
  }

  lemma {:induction false} InObject(w: string, v: string, rest: string, open: string)
    requires Lays(w, v, open + "{") && w != [] && w[0] == '"'
    ensures LayOut(("{" + w + [] + "}") + rest, open) ==
            ("{\n" + (Tabs(|open| + 1) + (v + "\n")) + Tabs(|open|) + "}") + LayOut(rest, open)
  {
    var inner, tail := open + "{", "}" + rest;
    assert ("{" + w + [] + "}") + rest == "{" + (w + tail);
    assert ("{" + (w + tail))[1..] == w + tail;
    assert LayOut(w + tail, inner) == v + LayOut(tail, inner);
    assert Outer(inner) == open && tail[1..] == rest;
  }

  /** A formatted print is the unformatted one laid out. */
  lemma {:induction false} PrintIsLaidOut(j: JSON)
    ensures Render(j, true, 0) == LayOut(Render(j, false, 0), "")
  {
    ValueLays(j, 0, 0, "");
    assert Render(j, false, 0) + [] == Render(j, false, 0) && Render(j, true, 0) + [] == Render(j, true, 0);
    assert LayOut(Render(j, false, 0) + [], "") == Render(j, true, 0) + LayOut([], "");
  }
}
