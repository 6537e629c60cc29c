/**
 `JSON.stringify` without indentation, and the proof that it is injective: a printed value can be
 read back from the front of any text that does not continue a number.
 */
module JsonText {
  import opened CanonicalJson

  function Hex(d: nat): char
    requires d < 16
  {
    "0123456789abcdef"[d]
  }

  function EscapeChar(c: char): string {
    if c == '\"' then "\\\""
    else if c == '\\' then "\\\\"
    else if c == '\U{8}' then "\\b"
    else if c == '\t' then "\\t"
    else if c == '\n' then "\\n"
    else if c == '\U{C}' then "\\f"
    else if c == '\r' then "\\r"
    else if c < ' ' then "\\u00" + [Hex(c as int / 16), Hex(c as int % 16)]
    else [c]
  }

  /** The escaped characters of `s` and the closing quote. */
  function Body(escape: char -> string, s: string): string {
    if s == [] then "\"" else escape(s[0]) + Body(escape, s[1..])
  }

  function Quote(s: string): string {
    "\"" + Body(EscapeChar, s)
  }

  /** The printer, over the function that quotes its strings. */
  function PrintWith(quote: string -> string, v: Json): string
    decreases v, 1
  {
    match v
    case Null => "null"
    case Bool(b) => if b then "true" else "false"
    case Num(t) => t
    case Str(s) => quote(s)
    case Arr(items) => "[" + PrintItems(quote, items, true)
    case Obj(ms) => "{" + PrintMembers(quote, ms, true)
  }

  /** The items and the closing bracket. */
  function PrintItems(quote: string -> string, items: seq<Json>, first: bool): string
    decreases items, 0
  {
    if items == [] then "]"
    else Comma(first) + PrintWith(quote, items[0]) + PrintItems(quote, items[1..], false)
  }

  function PrintMembers(quote: string -> string, ms: seq<Member>, first: bool): string
    decreases ms, 0
  {
    if ms == [] then "}"
    else Comma(first) + quote(ms[0].key) + ":" + PrintWith(quote, ms[0].value) + PrintMembers(quote, ms[1..], false)
  }

  function Comma(first: bool): string {
    if first then "" else ","
  }

  function Print(v: Json): string {
    PrintWith(Quote, v)
  }

  // ----- Reading back -----

  lemma Cancel(p: string, x: string, y: string)
    requires p + x == p + y
    ensures x == y
  {
    assert (p + x)[|p|..] == x && (p + y)[|p|..] == y;
  }

  lemma HexInjective(a: nat, b: nat)
    requires a < 16 && b < 16 && Hex(a) == Hex(b)
    ensures a == b
  {
  }

  predicate Plain(c: char) {
    EscapeChar(c) == [c]
  }

  lemma EscapeShape(c: char)
    ensures Plain(c) ==> c != '\"' && c != '\\'
    ensures !Plain(c) ==> 2 <= |EscapeChar(c)| <= 6 && EscapeChar(c)[0] == '\\'
    ensures !Plain(c) && EscapeChar(c)[1] == 'u' ==>
      c < ' ' && EscapeChar(c) == "\\u00" + [Hex(c as int / 16), Hex(c as int % 16)]
    ensures !Plain(c) && EscapeChar(c)[1] != 'u' ==> |EscapeChar(c)| == 2
  {
  }

  lemma ShortEscapeInjective(c: char, d: char)
    requires !Plain(c) && !Plain(d) && EscapeChar(c)[1] == EscapeChar(d)[1] != 'u'
    ensures c == d
  {
  }

  lemma LongEscapeInjective(c: char, d: char)
    requires c < ' ' && d < ' '
    requires Hex(c as int / 16) == Hex(d as int / 16) && Hex(c as int % 16) == Hex(d as int % 16)
    ensures c == d
  {
    HexInjective(c as int / 16, d as int / 16);
    HexInjective(c as int % 16, d as int % 16);
    assert c as int == c as int / 16 * 16 + c as int % 16;
    assert d as int == d as int / 16 * 16 + d as int % 16;
  }

  lemma EscapeReads(c: char, d: char, x: string, y: string)
    requires EscapeChar(c) + x == EscapeChar(d) + y
    ensures c == d && x == y
  {
    EscapeShape(c);
    EscapeShape(d);
    var left, right := EscapeChar(c) + x, EscapeChar(d) + y;
    assert left[0] == EscapeChar(c)[0] && right[0] == EscapeChar(d)[0];
    if !Plain(c) && !Plain(d) {
      assert left[1] == EscapeChar(c)[1] && right[1] == EscapeChar(d)[1];
      if EscapeChar(c)[1] == 'u' {
        assert left[4] == EscapeChar(c)[4] && right[4] == EscapeChar(d)[4];
        assert left[5] == EscapeChar(c)[5] && right[5] == EscapeChar(d)[5];
        LongEscapeInjective(c, d);
      } else {
        ShortEscapeInjective(c, d);
      }
    }
    assert c == d;
    Cancel(EscapeChar(c), x, y);
  }

  ghost predicate SelfDelimiting(escape: char -> string) {
    && (forall c: char :: escape(c) != [] && escape(c)[0] != '\"')
    && (forall c: char, d: char, x: string, y: string {:trigger escape(c) + x, escape(d) + y} ::
          escape(c) + x == escape(d) + y ==> c == d && x == y)
  }

  lemma EscapeSelfDelimiting()
    ensures SelfDelimiting(EscapeChar)
  {
    forall c: char ensures EscapeChar(c) != [] && EscapeChar(c)[0] != '\"' { EscapeShape(c); }
    forall c: char, d: char, x: string, y: string | EscapeChar(c) + x == EscapeChar(d) + y
      ensures c == d && x == y
    {
      EscapeReads(c, d, x, y);
    }
  }

  lemma {:induction false} BodyReads(escape: char -> string, s: string, t: string, x: string, y: string)
    requires SelfDelimiting(escape) && Body(escape, s) + x == Body(escape, t) + y
    ensures s == t && x == y
  {
    if s == [] || t == [] {
      assert (Body(escape, s) + x)[0] == Body(escape, s)[0] && (Body(escape, t) + y)[0] == Body(escape, t)[0];
      Cancel("\"", x, y);
    } else {
      assert Body(escape, s) + x == escape(s[0]) + (Body(escape, s[1..]) + x);
      assert Body(escape, t) + y == escape(t[0]) + (Body(escape, t[1..]) + y);
      BodyReads(escape, s[1..], t[1..], x, y);
      assert s == [s[0]] + s[1..] && t == [t[0]] + t[1..];
    }
  }

  /** A quoted string starts with a quote and can be read back from the front of any text. */
  ghost predicate QuoteReadable(quote: string -> string) {
    && (forall s: string :: quote(s) != [] && quote(s)[0] == '\"')
    && (forall s: string, t: string, x: string, y: string {:trigger quote(s) + x, quote(t) + y} ::
          quote(s) + x == quote(t) + y ==> s == t && x == y)
  }

  lemma QuoteIsReadable()
    ensures QuoteReadable(Quote)
  {
    EscapeSelfDelimiting();
    forall s: string, t: string, x: string, y: string | Quote(s) + x == Quote(t) + y
      ensures s == t && x == y
    {
      assert Quote(s) + x == "\"" + (Body(EscapeChar, s) + x) && Quote(t) + y == "\"" + (Body(EscapeChar, t) + y);
      Cancel("\"", Body(EscapeChar, s) + x, Body(EscapeChar, t) + y);
      BodyReads(EscapeChar, s, t, x, y);
    }
  }

  /** A text that does not continue a number. */
  predicate Stops(x: string) {
    x == [] || !NumChar(x[0])
  }

  lemma NumReads(s: string, t: string, x: string, y: string)
    requires NumText(s) && NumText(t) && Stops(x) && Stops(y) && s + x == t + y
    ensures s == t && x == y
  {
    assert (s + x)[..|s|] == s && (t + y)[..|t|] == t;
    Cancel(s, x, y);
  }

  /** The first character of a printed value tells its kind. */
  function Kind(v: Json): nat {
    match v
    case Null => 0
    case Bool(b) => if b then 1 else 2
    case Num(_) => 3
    case Str(_) => 4
    case Arr(_) => 5
    case Obj(_) => 6
  }

  function KindOf(c: char): nat {
    if c == 'n' then 0 else if c == 't' then 1 else if c == 'f' then 2
    else if c == '\"' then 4 else if c == '[' then 5 else if c == '{' then 6
    else if c == ']' || c == '}' || c == ',' then 7 else 3
  }

  lemma PrintHead(quote: string -> string, v: Json)
    requires QuoteReadable(quote) && WellFormed(v)
    ensures PrintWith(quote, v) != [] && KindOf(PrintWith(quote, v)[0]) == Kind(v) != 7
  {
  }

  lemma PrintReadsKind(quote: string -> string, a: Json, b: Json, x: string, y: string)
    requires QuoteReadable(quote) && WellFormed(a) && WellFormed(b)
    requires PrintWith(quote, a) + x == PrintWith(quote, b) + y
    ensures Kind(a) == Kind(b)
  {
    PrintHead(quote, a);
    PrintHead(quote, b);
    assert (PrintWith(quote, a) + x)[0] == PrintWith(quote, a)[0];
    assert (PrintWith(quote, b) + y)[0] == PrintWith(quote, b)[0];
  }

  lemma {:induction false} PrintReads(quote: string -> string, a: Json, b: Json, x: string, y: string)
    requires QuoteReadable(quote) && WellFormed(a) && WellFormed(b) && Stops(x) && Stops(y)
    requires PrintWith(quote, a) + x == PrintWith(quote, b) + y
    ensures a == b && x == y
    decreases a, 1
  {
    PrintReadsKind(quote, a, b, x, y);
    match a
    case Num(t) => NumReads(t, b.text, x, y);
    case Str(s) =>
    case Arr(items) =>
      var p, q := PrintItems(quote, items, true) + x, PrintItems(quote, b.items, true) + y;
      assert PrintWith(quote, a) + x == "[" + p && PrintWith(quote, b) + y == "[" + q;
      Cancel("[", p, q);
      ItemsRead(quote, items, b.items, true, x, y);
    case Obj(ms) =>
      var p, q := PrintMembers(quote, ms, true) + x, PrintMembers(quote, b.members, true) + y;
      assert PrintWith(quote, a) + x == "{" + p && PrintWith(quote, b) + y == "{" + q;
      Cancel("{", p, q);
      MembersRead(quote, ms, b.members, true, x, y);
    case _ => Cancel(PrintWith(quote, a), x, y);
  }

  lemma ReassociateItem(a: string, b: string, c: string, x: string)
    ensures (a + b + c) + x == a + (b + (c + x))
  {
  }

  lemma ItemsStop(quote: string -> string, xs: seq<Json>, x: string)
    ensures Stops(PrintItems(quote, xs, false) + x)
  {
    var text := PrintItems(quote, xs, false);
    assert text[0] == if xs == [] then ']' else ',';
    assert (text + x)[0] == text[0];
  }

  /** The text of a non-empty item list, re-associated. */
  lemma ItemsShape(quote: string -> string, xs: seq<Json>, first: bool, x: string)
    requires xs != []
    ensures PrintItems(quote, xs, first) + x ==
            Comma(first) + (PrintWith(quote, xs[0]) + (PrintItems(quote, xs[1..], false) + x))
    ensures Stops(PrintItems(quote, xs[1..], false) + x)
  {
    ReassociateItem(Comma(first), PrintWith(quote, xs[0]), PrintItems(quote, xs[1..], false), x);
    ItemsStop(quote, xs[1..], x);
  }

  lemma ItemsHead(quote: string -> string, xs: seq<Json>, first: bool, x: string)
    requires QuoteReadable(quote) && forall i :: 0 <= i < |xs| ==> WellFormed(xs[i])
    ensures PrintItems(quote, xs, first) != [] && (xs == [] <==> (PrintItems(quote, xs, first) + x)[0] == ']')
  {
    if xs != [] { PrintHead(quote, xs[0]); }
  }

  lemma {:induction false} ItemsRead(
    quote: string -> string, xs: seq<Json>, ys: seq<Json>, first: bool, x: string, y: string)
    requires QuoteReadable(quote)
    requires forall i :: 0 <= i < |xs| ==> WellFormed(xs[i])
    requires forall i :: 0 <= i < |ys| ==> WellFormed(ys[i])
    requires PrintItems(quote, xs, first) + x == PrintItems(quote, ys, first) + y
    ensures xs == ys && x == y
    decreases xs, 0
  {
    ItemsHead(quote, xs, first, x);
    ItemsHead(quote, ys, first, y);
    if xs == [] {
      Cancel("]", x, y);
    } else {
      ItemsShape(quote, xs, first, x);
      ItemsShape(quote, ys, first, y);
      var p, q := PrintItems(quote, xs[1..], false) + x, PrintItems(quote, ys[1..], false) + y;
      Cancel(Comma(first), PrintWith(quote, xs[0]) + p, PrintWith(quote, ys[0]) + q);
      PrintReads(quote, xs[0], ys[0], p, q);
      ItemsRead(quote, xs[1..], ys[1..], false, x, y);
      assert xs == [xs[0]] + xs[1..] && ys == [ys[0]] + ys[1..];
    }
  }

  /** The text after a member's key. */
  function AfterKey(quote: string -> string, ms: seq<Member>, x: string): string
    requires ms != []
  {
    PrintWith(quote, ms[0].value) + (PrintMembers(quote, ms[1..], false) + x)
  }

  lemma MembersShape(quote: string -> string, ms: seq<Member>, first: bool, x: string)
    requires ms != []
    ensures PrintMembers(quote, ms, first) + x == Comma(first) + (quote(ms[0].key) + (":" + AfterKey(quote, ms, x)))
    ensures Stops(PrintMembers(quote, ms[1..], false) + x)
  {
    Reassociate(
      Comma(first), quote(ms[0].key), ":", PrintWith(quote, ms[0].value), PrintMembers(quote, ms[1..], false), x);
  }

  lemma Reassociate(a: string, b: string, c: string, d: string, e: string, x: string)
    ensures a + b + c + d + e + x == a + (b + (c + (d + (e + x))))
  {
  }

  lemma MembersHead(quote: string -> string, ms: seq<Member>, first: bool, x: string)
    requires QuoteReadable(quote)
    ensures PrintMembers(quote, ms, first) != [] && (ms == [] <==> (PrintMembers(quote, ms, first) + x)[0] == '}')
  {
    if ms != [] { assert (PrintMembers(quote, ms, first) + x)[0] == (Comma(first) + quote(ms[0].key))[0]; }
  }

  lemma {:induction false} MembersRead(
    quote: string -> string, xs: seq<Member>, ys: seq<Member>, first: bool, x: string, y: string)
    requires QuoteReadable(quote)
    requires forall i :: 0 <= i < |xs| ==> WellFormed(xs[i].value)
    requires forall i :: 0 <= i < |ys| ==> WellFormed(ys[i].value)
    requires PrintMembers(quote, xs, first) + x == PrintMembers(quote, ys, first) + y
    ensures xs == ys && x == y
    decreases xs, 0
  {
    MembersHead(quote, xs, first, x);
    MembersHead(quote, ys, first, y);
    if xs == [] {
      Cancel("}", x, y);
    } else {
      MembersShape(quote, xs, first, x);
      MembersShape(quote, ys, first, y);
      var u, w := AfterKey(quote, xs, x), AfterKey(quote, ys, y);
      Cancel(Comma(first), quote(xs[0].key) + (":" + u), quote(ys[0].key) + (":" + w));
      Cancel(":", u, w);
      PrintReads(
        quote, xs[0].value, ys[0].value,
        PrintMembers(quote, xs[1..], false) + x, PrintMembers(quote, ys[1..], false) + y);
      MembersRead(quote, xs[1..], ys[1..], false, x, y);
      assert xs == [xs[0]] + xs[1..] && ys == [ys[0]] + ys[1..];
    }
  }

  /** Printing is injective on well-formed values. */
  lemma PrintInjective(a: Json, b: Json)
    requires WellFormed(a) && WellFormed(b)
    ensures Print(a) == Print(b) <==> a == b
  {
    if Print(a) == Print(b) {
      assert Print(a) + [] == Print(a) && Print(b) + [] == Print(b);
      QuoteIsReadable();
      PrintReads(Quote, a, b, [], []);
    }
  }
}
