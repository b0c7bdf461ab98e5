/**
 The text form of a VHDL aggregate of hexadecimal bit-string literals,
 `(x"0d", x"0a", x"41", x"0a", x"0d");`, and a reader for it. The reader
 returns the digit text of every element, in order; `DecodeAll` turns those
 into the values they denote. The generator in `CharAryGen` is shown to
 produce exactly this form, which is how the element count, the element
 order and the encoding of each element are stated.
 */
module VhdlLiteral {
  import Numerals
  import Texts

  datatype Option<T> = None | Some(value: T)

  /** The digits between the quotes of one `x"…"` element: at least one
      lower-case hex digit (leading zeros allowed). Quantified contracts
      over lists of element texts spell this condition out as
      `|d| >= 1 && Numerals.AllDigits(d, 16)` rather than calling this
      predicate, because the solver does not unfold the predicate inside
      those quantifiers. */
  predicate IsHexText(d: string) {
    |d| >= 1 && Numerals.AllDigits(d, 16)
  }

  /** One element, `x"<digits>"`. */
  function Wrap(d: string): string {
    "x\"" + d + "\""
  }

  /** The elements separated by a comma and a space. */
  function Join(ds: seq<string>): string
    requires |ds| >= 1
    decreases |ds|
  {
    if |ds| == 1 then Wrap(ds[0]) else Wrap(ds[0]) + ", " + Join(ds[1..])
  }

  /** The whole aggregate followed by the statement's semicolon. */
  function Literal(ds: seq<string>): string
    requires |ds| >= 1
  {
    "(" + Join(ds) + ");"
  }

  /** The values the element texts denote, in order. */
  function DecodeAll(ds: seq<string>): (vs: seq<nat>)
    requires forall d <- ds :: |d| >= 1 && Numerals.AllDigits(d, 16)
    ensures |vs| == |ds|
    ensures forall i :: 0 <= i < |ds| ==> vs[i] == Numerals.Parse(ds[i], 16)
    decreases |ds|
  {
    if |ds| == 0 then [] else [Numerals.Parse(ds[0], 16)] + DecodeAll(ds[1..])
  }

  /** Length of the longest prefix of `t` made of lower-case hex digits. */
  function HexRun(t: string): (k: nat)
    ensures k <= |t|
    ensures forall i :: 0 <= i < k ==> Numerals.IsDigit(t[i], 16)
    ensures k < |t| ==> !Numerals.IsDigit(t[k], 16)
    decreases |t|
  {
    if |t| > 0 && Numerals.IsDigit(t[0], 16) then 1 + HexRun(t[1..]) else 0
  }

  /** Reads one `x"<digits>"` element at the front of `t`; yields its digits
      and what follows the closing quote. */
  function ParseElem(t: string): (r: Option<(string, string)>)
    ensures r.Some? ==> IsHexText(r.value.0) && |r.value.1| < |t|
  {
    if |t| >= 2 && t[0] == 'x' && t[1] == '"' then
      var k := HexRun(t[2..]);
      if k >= 1 && 2 + k < |t| && t[2 + k] == '"' then
        Some((t[2..2 + k], t[3 + k..]))
      else None
    else None
  }

  /** Reads a non-empty `", "`-separated list of elements that spans all of `t`. */
  function ParseList(t: string): (r: Option<seq<string>>)
    ensures r.Some? ==> |r.value| >= 1
    ensures r.Some? ==> forall d <- r.value :: |d| >= 1 && Numerals.AllDigits(d, 16)
    decreases |t|
  {
    match ParseElem(t)
    case None => None
    case Some(elem) =>
      var (d, rest) := elem;
      if |rest| == 0 then Some([d])
      else if |rest| >= 2 && rest[0] == ',' && rest[1] == ' ' then
        match ParseList(rest[2..])
        case None => None
        case Some(ds) => Some([d] + ds)
      else None
  }

  /** Reads a whole line `(<list>);`; `None` when the line is not a
      complete aggregate. */
  function ParseLine(line: string): (r: Option<seq<string>>)
    ensures r.Some? ==> |line| >= 3 && line[0] == '(' && line[|line| - 2..] == ");"
    ensures r.Some? ==> |r.value| >= 1
    ensures r.Some? ==> forall d <- r.value :: |d| >= 1 && Numerals.AllDigits(d, 16)
  {
    if |line| >= 3 && line[0] == '(' && line[|line| - 2..] == ");" then
      ParseList(line[1..|line| - 2])
    else None
  }

  /** Reading an element back gives its digits and leaves the rest of the
      text untouched. */
  lemma ParseElemWrap(d: string, u: string)
    requires IsHexText(d)
    ensures ParseElem(Wrap(d) + u) == Some((d, u))
  {
    var t := Wrap(d) + u;
    var tail := t[2..];
    assert tail == d + ("\"" + u);
    var k := HexRun(tail);
    assert forall i :: 0 <= i < |d| ==> tail[i] == d[i];
    assert tail[|d|] == '"';
    assert k == |d|;
    assert t[2..2 + k] == d;
    assert t[3 + k..] == u;
  }

  /** One step of `ParseList`: an element, a separator, and a list. */
  lemma ParseListCons(t: string, d: string, rest: string, ds: seq<string>)
    requires ParseElem(t) == Some((d, rest))
    requires |rest| >= 2 && rest[0] == ',' && rest[1] == ' '
    requires ParseList(rest[2..]) == Some(ds)
    ensures ParseList(t) == Some([d] + ds)
  {
  }

  /** An element and a separator in front of a readable list. */
  lemma ParseListWrapCons(d: string, tail: string, ds: seq<string>)
    requires IsHexText(d)
    requires ParseList(tail) == Some(ds)
    ensures ParseList(Wrap(d) + ", " + tail) == Some([d] + ds)
  {
    var rest := ", " + tail;
    Texts.Assoc3(Wrap(d), ", ", tail);
    ParseElemWrap(d, rest);
    assert rest[2..] == tail;
    ParseListCons(Wrap(d) + rest, d, rest, ds);
  }

  /** Reading a joined list back gives all its elements' digits, in order. */
  lemma {:induction false} ParseJoin(ds: seq<string>)
    requires |ds| >= 1
    requires forall d <- ds :: |d| >= 1 && Numerals.AllDigits(d, 16)
    ensures ParseList(Join(ds)) == Some(ds)
    decreases |ds|
  {
    assert IsHexText(ds[0]);
    if |ds| == 1 {
      ParseElemWrap(ds[0], "");
      assert Wrap(ds[0]) + "" == Join(ds);
      assert ParseList(Join(ds)) == Some([ds[0]]);
      assert [ds[0]] == ds;
    } else {
      ParseJoin(ds[1..]);
      ParseListWrapCons(ds[0], Join(ds[1..]), ds[1..]);
      assert [ds[0]] + ds[1..] == ds;
    }
  }

  /** The reader inverts the aggregate form: it accepts the line and returns
      every element's digits, so the element count is `|ds|`. */
  lemma ParseLiteral(ds: seq<string>)
    requires |ds| >= 1
    requires forall d <- ds :: |d| >= 1 && Numerals.AllDigits(d, 16)
    ensures ParseLine(Literal(ds)) == Some(ds)
  {
    var line := Literal(ds);
    assert line[1..|line| - 2] == Join(ds);
    assert line[|line| - 2..] == ");";
    ParseJoin(ds);
  }

  /** Joining two lists is joining each and separating the two results. */
  lemma {:induction false} JoinAppend(xs: seq<string>, ys: seq<string>)
    requires |xs| >= 1 && |ys| >= 1
    ensures Join(xs + ys) == Join(xs) + ", " + Join(ys)
    decreases |xs|
  {
    var xy := xs + ys;
    if |xs| == 1 {
      assert xy[1..] == ys;
    } else {
      assert xy[1..] == xs[1..] + ys;
      JoinAppend(xs[1..], ys);
      calc {
        Join(xy);
        Wrap(xs[0]) + ", " + Join(xs[1..] + ys);
        Wrap(xs[0]) + ", " + (Join(xs[1..]) + ", " + Join(ys));
        { Texts.Assoc3(Wrap(xs[0]) + ", ", Join(xs[1..]) + ", ", Join(ys));
          Texts.Assoc3(Wrap(xs[0]) + ", ", Join(xs[1..]), ", "); }
        Join(xs) + ", " + Join(ys);
      }
    }
  }

  /** Decoding distributes over concatenation. */
  lemma DecodeAllAppend(xs: seq<string>, ys: seq<string>)
    requires forall d <- xs :: |d| >= 1 && Numerals.AllDigits(d, 16)
    requires forall d <- ys :: |d| >= 1 && Numerals.AllDigits(d, 16)
    ensures DecodeAll(xs + ys) == DecodeAll(xs) + DecodeAll(ys)
  {
    var zs := xs + ys;
    assert forall i :: 0 <= i < |zs| ==> zs[i] == if i < |xs| then xs[i] else ys[i - |xs|];
  }

  /** One element holds one `x`, two quotes and none of the other markers. */
  lemma WrapCounts(d: string)
    requires IsHexText(d)
    ensures multiset(Wrap(d))['x'] == 1
    ensures multiset(Wrap(d))['"'] == 2
    ensures multiset(Wrap(d))[')'] == 0
    ensures multiset(Wrap(d))['\n'] == 0
  {
    assert forall i :: 0 <= i < |d| ==> d[i] != 'x' && d[i] != '"' && d[i] != ')' && d[i] != '\n';
    assert multiset(Wrap(d)) == multiset("x\"") + multiset(d) + multiset("\"");
  }

  /** How often the marker characters occur in a joined list: one `x` and two
      quotes per element, and no parenthesis or line break. */
  lemma {:induction false} JoinCounts(ds: seq<string>)
    requires |ds| >= 1
    requires forall d <- ds :: |d| >= 1 && Numerals.AllDigits(d, 16)
    ensures multiset(Join(ds))['x'] == |ds|
    ensures multiset(Join(ds))['"'] == 2 * |ds|
    ensures multiset(Join(ds))[')'] == 0
    ensures multiset(Join(ds))['\n'] == 0
    decreases |ds|
  {
    assert IsHexText(ds[0]);
    WrapCounts(ds[0]);
    if |ds| > 1 {
      var m := multiset(Join(ds[1..]));
      JoinCounts(ds[1..]);
      assert multiset(Join(ds)) == multiset(Wrap(ds[0])) + multiset(", ") + m;
    }
  }

  /** The aggregate holds one `x` per element, one closing parenthesis and
      no line break. */
  lemma LiteralCounts(ds: seq<string>)
    requires |ds| >= 1
    requires forall d <- ds :: |d| >= 1 && Numerals.AllDigits(d, 16)
    ensures multiset(Literal(ds))['x'] == |ds|
    ensures multiset(Literal(ds))[')'] == 1
    ensures multiset(Literal(ds))['\n'] == 0
  {
    var j := Join(ds);
    JoinCounts(ds);
    assert Literal(ds) == ['('] + j + [')', ';'];
    var m, mo, mc := multiset(j), multiset(['(']), multiset([')', ';']);
    assert multiset(Literal(ds)) == mo + m + mc;
    assert mo['x'] == 0 && mo[')'] == 0 && mo['\n'] == 0;
    assert mc['x'] == 0 && mc[')'] == 1 && mc['\n'] == 0;
  }
}
