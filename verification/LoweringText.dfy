/** Text helpers shared by the lowering-table printer and its two readers. */
module LoweringText {

  predicate IsAlnum(c: char) {
    '0' <= c <= '9' || 'A' <= c <= 'Z' || 'a' <= c <= 'z'
  }

  predicate IsIdent(c: char) {
    IsAlnum(c) || c == '_'
  }

  predicate AllIdent(s: string) {
    forall i :: 0 <= i < |s| ==> IsIdent(s[i])
  }

  /** Length of the longest prefix of `[A-Za-z0-9_]`. */
  function IdentRun(s: string): (n: nat)
    ensures n <= |s|
  {
    if s == [] || !IsIdent(s[0]) then 0 else 1 + IdentRun(s[1..])
  }

  lemma {:induction false} IdentRunOfAppend(a: string, r: string)
    requires AllIdent(a)
    requires r == [] || !IsIdent(r[0])
    ensures IdentRun(a + r) == |a|
  {
    if a == [] {
      assert a + r == r;
    } else {
      assert (a + r)[1..] == a[1..] + r;
      IdentRunOfAppend(a[1..], r);
    }
  }

  function Spaces(n: nat): (r: string)
    ensures |r| == n && forall i :: 0 <= i < n ==> r[i] == ' '
  {
    seq(n, _ => ' ')
  }

  /** A line of generated code: indentation, then text that does not start with a space. */
  datatype Line = Line(indent: nat, text: string)

  function LineText(l: Line): string {
    Spaces(l.indent) + l.text
  }

  function LineTexts(lines: seq<Line>): (r: seq<string>)
    ensures |r| == |lines|
    ensures forall i :: 0 <= i < |r| ==> r[i] == LineText(lines[i])
  {
    seq(|lines|, i requires 0 <= i < |lines| => LineText(lines[i]))
  }
}
