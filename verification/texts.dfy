/**
 Plain facts about texts: regrouping concatenations, and the physical lines
 of a text, the pieces between line feeds. A final piece without a line
 feed is a line too; a text that ends in a line feed has no empty last line.
 */
module Texts {

  /** Regrouping a concatenation of three texts. */
  lemma Assoc3(a: string, b: string, c: string)
    ensures a + (b + c) == (a + b) + c
  {
  }

  /** Index of the first line feed in `t`, or `|t|` if there is none. */
  function LineEnd(t: string): (k: nat)
    ensures k <= |t|
    ensures forall i :: 0 <= i < k ==> t[i] != '\n'
    ensures k < |t| ==> t[k] == '\n'
    decreases |t|
  {
    if |t| == 0 || t[0] == '\n' then 0 else 1 + LineEnd(t[1..])
  }

  /** The lines of `t`, without their line feeds. */
  function Lines(t: string): (ls: seq<string>)
    ensures forall i :: 0 <= i < |ls| ==> '\n' !in ls[i]
    decreases |t|
  {
    if |t| == 0 then []
    else
      var k := LineEnd(t);
      if k == |t| then [t] else [t[..k]] + Lines(t[k + 1..])
  }

  /** A line feed ends the first line exactly where it stands. */
  lemma LinesCons(a: string, t: string)
    requires '\n' !in a
    ensures Lines(a + "\n" + t) == [a] + Lines(t)
  {
    var u := a + "\n" + t;
    var k := LineEnd(u);
    assert forall i :: 0 <= i < |a| ==> u[i] == a[i];
    assert u[|a|] == '\n';
    assert k == |a|;
    assert u[..k] == a;
    assert u[k + 1..] == t;
  }

  /** A single terminated line. */
  lemma LinesOfOne(a: string)
    requires '\n' !in a
    ensures Lines(a + "\n") == [a]
  {
    LinesCons(a, "");
    assert a + "\n" + "" == a + "\n";
  }

  /** A text of three terminated lines splits into those three lines. */
  lemma LinesOfThree(a: string, b: string, c: string)
    requires '\n' !in a && '\n' !in b && '\n' !in c
    ensures Lines(a + "\n" + b + "\n" + c + "\n") == [a, b, c]
  {
    var n := "\n";
    var an := a + n;
    Assoc3(an, b, n);
    Assoc3(an, b + n, c);
    Assoc3(an, b + n + c, n);
    Assoc3(b + n, c, n);
    LinesOfOne(c);
    LinesCons(b, c + n);
    LinesCons(a, b + n + (c + n));
  }

  /** A text of four terminated lines splits into those four lines. */
  lemma LinesOfFour(a: string, b: string, c: string, d: string)
    requires '\n' !in a && '\n' !in b && '\n' !in c && '\n' !in d
    ensures Lines(a + "\n" + b + "\n" + c + "\n" + d + "\n") == [a, b, c, d]
  {
    var n := "\n";
    var an := a + n;
    Assoc3(an, b, n);
    Assoc3(an, b + n, c);
    Assoc3(an, b + n + c, n);
    Assoc3(an, b + n + c + n, d);
    Assoc3(an, b + n + c + n + d, n);
    LinesOfThree(b, c, d);
    LinesCons(a, b + n + c + n + d + n);
  }
}
