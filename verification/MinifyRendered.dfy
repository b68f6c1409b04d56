/** What cJSON_Minify makes of a formatted print, one construct of the text after the other.

    The first half follows documents all of whose strings end where the minifier thinks they
    do; the second half shows that otherwise a blank too many is kept. */
module MinifyRendered {
  import opened Json
  import opened MinifyText
  import opened Numbers
  import opened PrintBuffer
  import opened Printing
  import opened StringMeaning
  import opened Text

  // ----- minifying a formatted print

  /** No key ends in a backslash, and no string value, unless nothing but closing brackets
      follows it in the text. */
  ghost predicate Quiet(j: JSON, end: bool) {
    match j
    case Str(s) => end || !EndsInBackslash(s)
    case Array(items) => forall i :: 0 <= i < |items| ==> Quiet(items[i], end && i == |items| - 1)
    case Object(members) =>
      forall i :: 0 <= i < |members| ==> !EndsInBackslash(members[i].key) && Quiet(members[i].value, false)
    case _ => true
  }

  ghost predicate Brackets(s: string) { forall i :: 0 <= i < |s| ==> s[i] == ']' }

  predicate EndsInBackslash(s: string) { s != [] && s[|s| - 1] == '\\' }

  predicate IsCopied(c: char) { !IsBlank(c) && c != '/' && c != '"' }

  lemma {:induction false} CopyText(w: string, rest: string)
    requires forall i :: 0 <= i < |w| ==> IsCopied(w[i])
    ensures Minify(w + rest) == w + Minify(rest)
    decreases |w|
  {
    if w == [] {
      assert w + rest == rest && w + Minify(rest) == Minify(rest);
    } else {
      CopyText(w[1..], rest);
      assert (w + rest)[1..] == w[1..] + rest;
      assert w == [w[0]] + w[1..];
    }
  }

  lemma {:induction false} DropText(w: string, rest: string)
    requires forall i :: 0 <= i < |w| ==> IsBlank(w[i])
    ensures Minify(w + rest) == Minify(rest)
    decreases |w|
  {
    if w == [] {
      assert w + rest == rest;
    } else {
      DropText(w[1..], rest);
      assert (w + rest)[1..] == w[1..] + rest;
    }
  }

  /** Inside a string, chars that are neither a quote nor in front of one are copied. */
  lemma {:induction false} CopyInString(w: string, rest: string)
    requires forall i :: 0 <= i < |w| ==> w[i] != '"'
    requires w != [] && w[|w| - 1] == '\\' ==> rest == [] || rest[0] != '"'
    ensures MinifyString(w + rest) == w + MinifyString(rest)
    decreases |w|
  {
    if w == [] {
      assert w + rest == rest && w + MinifyString(rest) == MinifyString(rest);
    } else {
      var s := w + rest;
      CopyInString(w[1..], rest);
      assert s[0] == w[0] && s[1..] == w[1..] + rest;
      assert |s| > 1 ==> s[1] == if |w| > 1 then w[1] else rest[0];
      assert MinifyString(s) == [w[0]] + MinifyString(s[1..]);
      assert w == [w[0]] + w[1..];
    }
  }

  lemma {:induction false} MinifyEscaped(s: string, rest: string)
    requires rest != [] && (EndsInBackslash(s) ==> rest[0] != '"')
    ensures MinifyString(Escape(s) + rest) == Escape(s) + MinifyString(rest)
    decreases |s|
  {
    if s == [] {
      assert [] + rest == rest && [] + MinifyString(rest) == MinifyString(rest);
    } else {
      MinifyEscaped(s[1..], rest);
      var x, more := EscapeChar(s[0]), Escape(s[1..]);
      MinifyOneEscaped(s[0], more + rest) by { EscapeStarts(s[1..], rest); }
      Regroup(x, more, rest);
      Regroup(x, more, MinifyString(rest));
    }
  }

  lemma {:induction false} MinifyOneEscaped(c: char, rest: string)
    requires c == '\\' ==> rest != [] && rest[0] != '"'
    ensures MinifyString(EscapeChar(c) + rest) == EscapeChar(c) + MinifyString(rest)
  {
    if c == '"' {
      assert (EscapeChar(c) + rest)[2..] == rest;
    } else {
      CopyInString(EscapeChar(c), rest);
    }
  }

  /** An escaped text does not start with a bare quote. */
  lemma {:induction false} EscapeStarts(s: string, rest: string)
    requires rest != []
    ensures var text := Escape(s) + rest; text != [] && text[0] == if s == [] then rest[0] else Escape(s)[0]
    ensures s != [] ==> Escape(s)[0] != '"'
  {
  }

  lemma {:induction false} Around(a: string, b: string, c: string, d: string)
    ensures a + b + c + d == a + (b + (c + d))
  {
  }

  /** A printed string that does not end in a backslash is copied; one that does is, too,
      but its closing quote does not close it. */
  lemma {:induction false} MinifyQuoted(s: string, rest: string)
    ensures Minify(Quoted(s) + rest) == Quoted(s) + if EndsInBackslash(s) then MinifyString(rest) else Minify(rest)
  {
    var body, q := Escape(s), "\"" + rest;
    var tail := if EndsInBackslash(s) then MinifyString(rest) else Minify(rest);
    Around("\"", body, "\"", rest);
    Around("\"", body, "\"", tail);
    assert ("\"" + (body + q))[1..] == body + q && q[1..] == rest;
    if EndsInBackslash(s) {
      StaysOpen(s, rest);
    } else {
      MinifyEscaped(s, q);
    }
  }

  lemma {:induction false} StaysOpen(s: string, rest: string)
    requires EndsInBackslash(s)
    ensures MinifyString(Escape(s) + ("\"" + rest)) == Escape(s) + ("\"" + MinifyString(rest))
    decreases |s|
  {
    var x, more, q, tail := EscapeChar(s[0]), Escape(s[1..]), "\"" + rest, "\"" + MinifyString(rest);
    if |s| == 1 {
      BackslashStaysOpen(rest);
      assert Escape(s) == "\\\\" by { assert more == [] && x + [] == x; }
    } else {
      Regroup(x, more, q);
      Regroup(x, more, tail);
      StaysOpen(s[1..], rest);
      EscapeStarts(s[1..], q);
      MinifyOneEscaped(s[0], more + q);
    }
  }

  lemma {:induction false} BackslashStaysOpen(rest: string)
    ensures MinifyString("\\\\" + ("\"" + rest)) == "\\\\" + ("\"" + MinifyString(rest))
  {
    var q := "\"" + rest;
    assert ("\\\\" + q)[1..] == "\\" + q && ("\\" + q)[2..] == rest;
    assert "\\" + ("\\\"" + MinifyString(rest)) == "\\\\" + ("\"" + MinifyString(rest));
  }

  lemma {:induction false} BracketsStay(s: string)
    requires Brackets(s)
    ensures Minify(s) == s && MinifyString(s) == s
  {
    assert s + [] == s;
    CopyText(s, []);
    CopyInString(s, []);
  }

  /** A formatted print, whatever follows it, minifies to the unformatted one. */
  lemma {:induction false} MinifyRender(j: JSON, d: nat, e: nat, end: bool, rest: string)
    requires Quiet(j, end) && (end ==> Brackets(rest))
    ensures Minify(Render(j, true, d) + rest) == Render(j, false, e) + Minify(rest)
    decreases j, 1
  {
    match j
    case Null => CopyText("null", rest);
    case False => CopyText("false", rest);
    case True => CopyText("true", rest);
    case Number(n) =>
      DecimalDigits(if n < 0 then -n else n);
      CopyText(Signed(n), rest);
    case Str(s) =>
      MinifyQuoted(s, rest);
      if end { BracketsStay(rest); }
    case Array(items) =>
      OpenArray(items, d, d + 1, e, e + 1, rest, Minify(rest));
      MinifyItems(items, d + 1, e + 1, end, "]" + rest);
      CopyText("]", rest);
    case Object(members) => MinifyObject(members, d, e, d + 1, e + 1, rest);
  }

  lemma {:induction false} OpenArray(items: seq<JSON>, d: nat, d1: nat, e: nat, e1: nat, rest: string, flat: string)
    requires d1 == d + 1 && e1 == e + 1
    ensures Minify(Render(Array(items), true, d) + rest) == "[" + Minify(RenderItems(items, true, d1) + ("]" + rest))
    ensures Render(Array(items), false, e) + flat == "[" + (RenderItems(items, false, e1) + ("]" + flat))
  {
    var inner := RenderItems(items, true, d1);
    Around("[", inner, "]", rest);
    CopyText("[", inner + ("]" + rest));
    Around("[", RenderItems(items, false, e1), "]", flat);
  }

  lemma {:induction false} MinifyItems(items: seq<JSON>, d: nat, e: nat, end: bool, rest: string)
    requires Quiet(Array(items), end) && (end ==> Brackets(rest))
    ensures Minify(RenderItems(items, true, d) + rest) == RenderItems(items, false, e) + Minify(rest)
    decreases items, 0
  {
    if items == [] {
      assert [] + rest == rest && [] + Minify(rest) == Minify(rest);
    } else {
      var last := |items| == 1;
      var more, flat := RenderItems(items[1..], true, d) + rest, RenderItems(items[1..], false, e) + Minify(rest);
      QuietTail(items, end);
      MinifyItems(items[1..], d, e, end, rest);
      SplitItems(items, d, e, rest, Minify(rest));
      if last { assert more == rest && ItemEnd(true, last) + more == rest; }
      MinifyRender(items[0], d, e, end && last, ItemEnd(true, last) + more);
      MinifyItemEnd(last, more);
    }
  }

  lemma {:induction false} QuietTail(items: seq<JSON>, end: bool)
    requires items != []
    ensures Quiet(Array(items), end) <==> Quiet(items[0], end && |items| == 1) && Quiet(Array(items[1..]), end)
  {
    var tail := items[1..];
    if Quiet(items[0], end && |items| == 1) && Quiet(Array(tail), end) {
      forall i | 0 <= i < |items| ensures Quiet(items[i], end && i == |items| - 1) {
        if i > 0 { assert Quiet(tail[i - 1], end && i - 1 == |tail| - 1); }
      }
    }
    if Quiet(Array(items), end) {
      forall i | 0 <= i < |tail| ensures Quiet(tail[i], end && i == |tail| - 1) {
        assert Quiet(items[i + 1], end && i + 1 == |items| - 1);
      }
    }
  }

  lemma {:induction false} SplitItems(items: seq<JSON>, d: nat, e: nat, rest: string, flat: string)
    requires items != []
    ensures RenderItems(items, true, d) + rest ==
            Render(items[0], true, d) + (ItemEnd(true, |items| == 1) + (RenderItems(items[1..], true, d) + rest))
    ensures RenderItems(items, false, e) + flat ==
            Render(items[0], false, e) + (ItemEnd(false, |items| == 1) + (RenderItems(items[1..], false, e) + flat))
  {
    Around(Render(items[0], true, d), ItemEnd(true, |items| == 1), RenderItems(items[1..], true, d), rest);
    Around(Render(items[0], false, e), ItemEnd(false, |items| == 1), RenderItems(items[1..], false, e), flat);
  }

  lemma {:induction false} MinifyItemEnd(last: bool, rest: string)
    ensures Minify(ItemEnd(true, last) + rest) == ItemEnd(false, last) + Minify(rest)
  {
    if last {
      assert [] + rest == rest && [] + Minify(rest) == Minify(rest);
    } else {
      Regroup(",", " ", rest);
      CopyText(",", " " + rest);
      DropText(" ", rest);
    }
  }

  lemma {:induction false} MinifyMemberEnd(last: bool, rest: string)
    ensures Minify(MemberEnd(true, last) + rest) == MemberEnd(false, last) + Minify(rest)
  {
    var comma := if last then "" else ",";
    Regroup(comma, "\n", rest);
    CopyText(comma, "\n" + rest);
    DropText("\n", rest);
    assert MemberEnd(false, last) == comma;
  }

  lemma {:induction false} MinifyTabs(d: nat, rest: string)
    ensures Minify(Tabs(d) + rest) == Minify(rest)
  {
    if d == 0 {
      assert [] + rest == rest;
    } else {
      MinifyTabs(d - 1, rest);
      Regroup("\t", Tabs(d - 1), rest);
      DropText("\t", Tabs(d - 1) + rest);
    }
  }

  lemma {:induction false} MinifyObject(members: seq<Member>, d: nat, e: nat, d1: nat, e1: nat, rest: string)
    requires Quiet(Object(members), false) && d1 == d + 1 && e1 == e + 1
    ensures Minify(Render(Object(members), true, d) + rest) == Render(Object(members), false, e) + Minify(rest)
    decreases members, 1
  {
    OpenObject(members, d, d1, e, e1, rest, Minify(rest));
    MinifyMembers(members, d1, e1, Tabs(d) + ("}" + rest));
    CloseObject(d, rest);
  }

  lemma {:induction false} CloseObject(d: nat, rest: string)
    ensures Minify(Tabs(d) + ("}" + rest)) == "}" + Minify(rest)
  {
    MinifyTabs(d, "}" + rest);
    CopyText("}", rest);
  }

  lemma {:induction false} OpenObject(members: seq<Member>, d: nat, d1: nat, e: nat, e1: nat, rest: string,
      flat: string)
    requires d1 == d + 1 && e1 == e + 1
    ensures Minify(Render(Object(members), true, d) + rest) ==
            "{" + Minify(RenderMembers(members, true, d1) + (Tabs(d) + ("}" + rest)))
    ensures Render(Object(members), false, e) + flat == "{" + (RenderMembers(members, false, e1) + ("}" + flat))
  {
    var inner, close := RenderMembers(members, true, d1), Tabs(d) + ("}" + rest);
    ObjectAround(members, d, d1, rest);
    Regroup("{", "\n", inner + close);
    CopyText("{", "\n" + (inner + close));
    DropText("\n", inner + close);
    PlainObject(members, e, e1, flat);
  }

  lemma {:induction false} PlainObject(members: seq<Member>, e: nat, e1: nat, flat: string)
    requires e1 == e + 1
    ensures Render(Object(members), false, e) + flat == "{" + (RenderMembers(members, false, e1) + ("}" + flat))
  {
    var plain := RenderMembers(members, false, e1);
    assert "{" + plain + [] == "{" + plain;
    Around("{", plain, "}", flat);
  }

  lemma {:induction false} ObjectAround(members: seq<Member>, d: nat, d1: nat, rest: string)
    requires d1 == d + 1
    ensures Render(Object(members), true, d) + rest ==
            "{\n" + (RenderMembers(members, true, d1) + (Tabs(d) + ("}" + rest)))
  {
    var inner := RenderMembers(members, true, d1);
    Around("{\n" + inner, Tabs(d), "}", rest);
    Regroup("{\n", inner, Tabs(d) + ("}" + rest));
    assert "{\n" + inner + Tabs(d) + "}" + rest == ("{\n" + inner) + (Tabs(d) + ("}" + rest));
  }

  lemma {:induction false} MinifyMembers(members: seq<Member>, d: nat, e: nat, rest: string)
    requires Quiet(Object(members), false)
    ensures Minify(RenderMembers(members, true, d) + rest) == RenderMembers(members, false, e) + Minify(rest)
    decreases members, 0
  {
    if members == [] {
      assert [] + rest == rest && [] + Minify(rest) == Minify(rest);
    } else {
      MinifyMembers(members[1..], d, e, rest);
      SplitMembers(members, d, e, rest, Minify(rest));
      MinifyMember(members[0], d, e, |members| == 1, RenderMembers(members[1..], true, d) + rest);
    }
  }

  lemma {:induction false} SplitMembers(members: seq<Member>, d: nat, e: nat, rest: string, flat: string)
    requires members != []
    ensures RenderMembers(members, true, d) + rest ==
            MemberText(members[0], true, d, |members| == 1) + (RenderMembers(members[1..], true, d) + rest)
    ensures RenderMembers(members, false, e) + flat ==
            MemberText(members[0], false, e, |members| == 1) + (RenderMembers(members[1..], false, e) + flat)
  {
    var more, less := RenderMembers(members[1..], true, d), RenderMembers(members[1..], false, e);
    assert RenderMembers(members, true, d) == MemberText(members[0], true, d, |members| == 1) + more;
    assert RenderMembers(members, false, e) == MemberText(members[0], false, e, |members| == 1) + less;
    Regroup(MemberText(members[0], true, d, |members| == 1), more, rest);
    Regroup(MemberText(members[0], false, e, |members| == 1), less, flat);
  }

  lemma {:induction false} MinifyMember(m: Member, d: nat, e: nat, last: bool, rest: string)
    requires !EndsInBackslash(m.key) && Quiet(m.value, false)
    ensures Minify(MemberText(m, true, d, last) + rest) == MemberText(m, false, e, last) + Minify(rest)
    decreases m, 2
  {
    var value, tail := Render(m.value, true, d), MemberEnd(true, last) + rest;
    Around(NameText(m.key, true, d), value, MemberEnd(true, last), rest);
    MinifyName(m.key, d, e, value + tail);
    MinifyRender(m.value, d, e, false, tail);
    MinifyMemberEnd(last, rest);
    Around(NameText(m.key, false, e), Render(m.value, false, e), MemberEnd(false, last), Minify(rest));
  }

  lemma {:induction false} MinifyName(key: string, d: nat, e: nat, rest: string)
    requires !EndsInBackslash(key)
    ensures Minify(NameText(key, true, d) + rest) == NameText(key, false, e) + Minify(rest)
  {
    Around(Tabs(d), Quoted(key), ":\t", rest);
    MinifyTabs(d, Quoted(key) + (":\t" + rest));
    MinifyQuoted(key, ":\t" + rest);
    Regroup(":", "\t", rest);
    CopyText(":", "\t" + rest);
    DropText("\t", rest);
    assert [] + Quoted(key) == Quoted(key);
    Regroup(Quoted(key), ":", Minify(rest));
  }

  // ----- and otherwise it keeps a blank too many

  /** The formatted and the unformatted continuation of a string that stays open: they
      agree up to k, where the formatted one has a blank that the other has not. */
  ghost predicate Apart(rest: string, flat: string, k: nat) {
    k < |rest| && k <= |flat| && rest[..k] == flat[..k] &&
    (forall i :: 0 <= i < k ==> rest[i] != '"' && rest[i] != '\\') &&
    IsBlank(rest[k]) && (k < |flat| ==> !IsBlank(flat[k]))
  }

  lemma {:induction false} Cancel(a: string, x: string, y: string)
    requires x != y
    ensures a + x != a + y
  {
    assert (a + x)[|a|..] == x && (a + y)[|a|..] == y;
  }

  lemma {:induction false} OpenDiffers(rest: string, flat: string, k: nat)
    requires Apart(rest, flat, k)
    ensures MinifyString(rest) != flat
  {
    var w, tail := rest[..k], rest[k..];
    assert rest == w + tail;
    CopyInString(w, tail);
    StringKeepsFirst(tail);
    assert (w + MinifyString(tail))[k] == rest[k];
  }

  lemma {:induction false} NoisyRender(j: JSON, d: nat, e: nat, end: bool, rest: string, flat: string, k: nat)
    requires !Quiet(j, end) && (!end ==> Apart(rest, flat, k))
    ensures Minify(Render(j, true, d) + rest) != Render(j, false, e) + flat
    decreases j, 1
  {
    match j
    case Str(s) =>
      MinifyQuoted(s, rest);
      OpenDiffers(rest, flat, k);
      Cancel(Quoted(s), MinifyString(rest), flat);
    case Array(items) => NoisyArray(items, d, d + 1, e, e + 1, end, rest, flat, k, k + 1);
    case Object(members) => NoisyObject(members, d, d + 1, e, e + 1, rest, flat);
  }

  lemma {:induction false} NoisyArray(items: seq<JSON>, d: nat, d1: nat, e: nat, e1: nat, end: bool, rest: string,
      flat: string, k: nat, k1: nat)
    requires !Quiet(Array(items), end) && (!end ==> Apart(rest, flat, k)) && d1 == d + 1 && e1 == e + 1 && k1 == k + 1
    ensures Minify(Render(Array(items), true, d) + rest) != Render(Array(items), false, e) + flat
    decreases items, 1
  {
    OpenArray(items, d, d1, e, e1, rest, flat);
    if !end { assert ("]" + rest)[..k1] == "]" + rest[..k] && ("]" + flat)[..k1] == "]" + flat[..k]; }
    NoisyItems(items, d1, e1, end, "]" + rest, "]" + flat, k1);
    Cancel("[", Minify(RenderItems(items, true, d1) + ("]" + rest)), RenderItems(items, false, e1) + ("]" + flat));
  }

  lemma {:induction false} NoisyObject(members: seq<Member>, d: nat, d1: nat, e: nat, e1: nat, rest: string,
      flat: string)
    requires !Quiet(Object(members), false) && d1 == d + 1 && e1 == e + 1
    ensures Minify(Render(Object(members), true, d) + rest) != Render(Object(members), false, e) + flat
    decreases members, 1
  {
    OpenObject(members, d, d1, e, e1, rest, flat);
    NoisyMembers(members, d1, e1, Tabs(d) + ("}" + rest), "}" + flat);
    Cancel("{", Minify(RenderMembers(members, true, d1) + (Tabs(d) + ("}" + rest))), RenderMembers(members, false, e1) +
      ("}" + flat));
  }

  lemma {:induction false} NoisyItems(items: seq<JSON>, d: nat, e: nat, end: bool, rest: string, flat: string, k: nat)
    requires !Quiet(Array(items), end) && (!end ==> Apart(rest, flat, k))
    ensures Minify(RenderItems(items, true, d) + rest) != RenderItems(items, false, e) + flat
    decreases items, 0
  {
    QuietTail(items, end);
    SplitItems(items, d, e, rest, flat);
    var last := |items| == 1;
    var more, less := RenderItems(items[1..], true, d) + rest, RenderItems(items[1..], false, e) + flat;
    if !Quiet(items[0], end && last) {
      ItemApart(items, d, e, end, rest, flat, k);
      NoisyRender(items[0], d, e, end && last, ItemEnd(true, last) + more, ItemEnd(false, last) + less,
        if last then k else 1);
    } else {
      NoisyItems(items[1..], d, e, end, rest, flat, k);
      MinifyRender(items[0], d, e, false, ItemEnd(true, last) + more);
      MinifyItemEnd(last, more);
      Cancel(ItemEnd(false, last), Minify(more), less);
      Cancel(Render(items[0], false, e), ItemEnd(false, last) + Minify(more), ItemEnd(false, last) + less);
    }
  }

  lemma {:induction false} RenderStarts(j: JSON, fmt: bool, depth: nat)
    ensures var r := Render(j, fmt, depth); r != [] && r[0] as int > 32 && r[0] != ']'
  {
    if j.Number? { SignedReads(j.n); }
  }

  lemma {:induction false} ItemApart(items: seq<JSON>, d: nat, e: nat, end: bool, rest: string, flat: string, k: nat)
    requires items != [] && (!end ==> Apart(rest, flat, k))
    ensures var last := |items| == 1;
            !(end && last) ==>
              Apart(ItemEnd(true, last) + (RenderItems(items[1..], true, d) + rest),
                    ItemEnd(false, last) + (RenderItems(items[1..], false, e) + flat), if last then k else 1)
  {
    if |items| == 1 {
      assert [] + ([] + rest) == rest && [] + ([] + flat) == flat;
    } else {
      RenderStarts(items[1], false, e);
      assert items[1..][0] == items[1];
    }
  }

  lemma {:induction false} NoisyMembers(members: seq<Member>, d: nat, e: nat, rest: string, flat: string)
    requires !Quiet(Object(members), false) && flat != [] && !IsBlank(flat[0])
    ensures Minify(RenderMembers(members, true, d) + rest) != RenderMembers(members, false, e) + flat
    decreases members, 0
  {
    SplitMembers(members, d, e, rest, flat);
    var m, last := members[0], |members| == 1;
    var more, less := RenderMembers(members[1..], true, d) + rest, RenderMembers(members[1..], false, e) + flat;
    MembersStart(members[1..], e, flat);
    if EndsInBackslash(m.key) || !Quiet(m.value, false) {
      NoisyMember(m, d, e, last, more, less);
    } else {
      assert !Quiet(Object(members[1..]), false);
      NoisyMembers(members[1..], d, e, rest, flat);
      MinifyMember(m, d, e, last, more);
      Cancel(MemberText(m, false, e, last), Minify(more), less);
    }
  }

  lemma {:induction false} MembersStart(members: seq<Member>, e: nat, flat: string)
    requires flat != [] && !IsBlank(flat[0])
    ensures var text := RenderMembers(members, false, e) + flat; text != [] && !IsBlank(text[0])
  {
    if members != [] {
      assert Quoted(members[0].key)[0] == '"';
      assert RenderMembers(members, false, e)[0] == '"';
    } else {
      assert [] + flat == flat;
    }
  }

  lemma {:induction false} NoisyMember(m: Member, d: nat, e: nat, last: bool, rest: string, flat: string)
    requires EndsInBackslash(m.key) || !Quiet(m.value, false)
    requires flat != [] && !IsBlank(flat[0])
    ensures Minify(MemberText(m, true, d, last) + rest) != MemberText(m, false, e, last) + flat
    decreases m, 2
  {
    var value, tail := Render(m.value, true, d), MemberEnd(true, last) + rest;
    var plain, end := Render(m.value, false, e), MemberEnd(false, last) + flat;
    Around(NameText(m.key, true, d), value, MemberEnd(true, last), rest);
    Around(NameText(m.key, false, e), plain, MemberEnd(false, last), flat);
    if EndsInBackslash(m.key) {
      RenderStarts(m.value, false, e);
      NoisyName(m.key, d, e, value + tail, plain + end);
    } else {
      MinifyName(m.key, d, e, value + tail);
      NoisyRender(m.value, d, e, false, tail, end, if last then 0 else 1);
      Cancel(NameText(m.key, false, e), Minify(value + tail), plain + end);
    }
  }

  lemma {:induction false} NoisyName(key: string, d: nat, e: nat, rest: string, flat: string)
    requires EndsInBackslash(key) && flat != [] && !IsBlank(flat[0])
    ensures Minify(NameText(key, true, d) + rest) != NameText(key, false, e) + flat
  {
    Around(Tabs(d), Quoted(key), ":\t", rest);
    MinifyTabs(d, Quoted(key) + (":\t" + rest));
    MinifyQuoted(key, ":\t" + rest);
    OpenDiffers(":\t" + rest, ":" + flat, 1);
    Cancel(Quoted(key), MinifyString(":\t" + rest), ":" + flat);
    assert [] + Quoted(key) == Quoted(key);
    Regroup(Quoted(key), ":", flat);
  }
}
