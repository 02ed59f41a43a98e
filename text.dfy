/** Multi-line text as the printer treats it: strings.Split and strings.Join
    on "\n", and the per-line indentation of indentAllLines. */
module Text {

  /** strings.Split(s, "\n"): the pieces between newlines. Never empty; the
      empty string splits into one empty line. */
  function Split(s: string): (r: seq<string>)
    ensures |r| >= 1
    ensures forall i :: 0 <= i < |r| ==> '\n' !in r[i]
  {
    if s == [] then [""]
    else
      var rest := Split(s[1..]);
      if s[0] == '\n' then [""] + rest
      else [[s[0]] + rest[0]] + rest[1..]
  }

  /** strings.Join(lines, "\n"). */
  function Join(lines: seq<string>): string
  {
    if |lines| == 0 then ""
    else if |lines| == 1 then lines[0]
    else lines[0] + "\n" + Join(lines[1..])
  }

  /** Concatenation of a sequence of line lists. */
  function Flatten(xss: seq<seq<string>>): (r: seq<string>)
    ensures |r| == TotalLength(xss)
  {
    if xss == [] then [] else xss[0] + Flatten(xss[1..])
  }

  function TotalLength(xss: seq<seq<string>>): nat
  {
    if xss == [] then 0 else |xss[0]| + TotalLength(xss[1..])
  }

  /** Each line prefixed with `indent`. */
  function Indented(lines: seq<string>, indent: string): (r: seq<string>)
    ensures |r| == |lines|
    ensures forall i :: 0 <= i < |r| ==> r[i] == indent + lines[i]
  {
    seq(|lines|, i requires 0 <= i < |lines| => indent + lines[i])
  }

  /** What indentAllLines returns: split into lines, prefix each, join. */
  function IndentLines(s: string, indent: string): string
  {
    Join(Indented(Split(s), indent))
  }

  /** Prefixing the head line of a list prefixes the joined text. */
  lemma JoinPrefixHead(c: char, lines: seq<string>)
    requires |lines| >= 1
    ensures Join([[c] + lines[0]] + lines[1..]) == [c] + Join(lines)
  {
    var l2 := [[c] + lines[0]] + lines[1..];
    if |lines| > 1 {
      assert l2[1..] == lines[1..];
    }
  }

  /** Joining the pieces of a split gives the text back. */
  lemma {:induction false} JoinSplit(s: string)
    ensures Join(Split(s)) == s
  {
    if s != [] {
      var rest := Split(s[1..]);
      JoinSplit(s[1..]);
      if s[0] == '\n' {
        assert ([""] + rest)[1..] == rest;
      } else {
        JoinPrefixHead(s[0], rest);
      }
    }
  }

  /** A text without newlines is one line. */
  lemma {:induction false} SplitSingleLine(a: string)
    requires '\n' !in a
    ensures Split(a) == [a]
  {
    if a != [] {
      assert a[0] in a;
      SplitSingleLine(a[1..]);
      assert [a[0]] + a[1..] == a;
    }
  }

  /** Splitting around one newline splits both sides independently. */
  lemma {:induction false} SplitAround(a: string, b: string)
    ensures Split(a + "\n" + b) == Split(a) + Split(b)
  {
    var t := a + "\n" + b;
    if a == [] {
      assert t[1..] == b;
    } else {
      assert t[1..] == a[1..] + "\n" + b;
      SplitAround(a[1..], b);
    }
  }

  /** Splitting a join of lines gives the concatenation of each line's
      pieces. */
  lemma {:induction false} SplitJoinFlatten(xs: seq<string>)
    requires |xs| >= 1
    ensures Split(Join(xs)) == Flatten(seq(|xs|, i requires 0 <= i < |xs| => Split(xs[i])))
  {
    var xss := seq(|xs|, i requires 0 <= i < |xs| => Split(xs[i]));
    if |xs| == 1 {
      assert Flatten(xss) == xss[0] + Flatten([]);
    } else {
      SplitAround(xs[0], Join(xs[1..]));
      SplitJoinFlatten(xs[1..]);
      assert xss[1..] == seq(|xs[1..]|, i requires 0 <= i < |xs[1..]| => Split(xs[1..][i]));
    }
  }

  /** Joining newline-free lines and splitting again is the identity. */
  lemma {:induction false} SplitJoin(lines: seq<string>)
    requires |lines| >= 1
    requires forall i :: 0 <= i < |lines| ==> '\n' !in lines[i]
    ensures Split(Join(lines)) == lines
  {
    if |lines| == 1 {
      SplitSingleLine(lines[0]);
    } else {
      SplitAround(lines[0], Join(lines[1..]));
      SplitSingleLine(lines[0]);
      SplitJoin(lines[1..]);
    }
  }

  /** indentAllLines keeps the number of lines, and line i of the result is
      the indent followed by line i of the input. */
  lemma IndentLinesSplit(s: string, indent: string)
    requires '\n' !in indent
    ensures Split(IndentLines(s, indent)) == Indented(Split(s), indent)
    ensures |Split(IndentLines(s, indent))| == |Split(s)|
  {
    var lines := Indented(Split(s), indent);
    forall i | 0 <= i < |lines| ensures '\n' !in lines[i] {
      assert lines[i] == indent + Split(s)[i];
    }
    SplitJoin(lines);
  }

  /** The empty indent leaves the text unchanged. */
  lemma IndentLinesEmpty(s: string)
    ensures IndentLines(s, "") == s
  {
    var lines := Split(s);
    forall i | 0 <= i < |lines| ensures Indented(lines, "")[i] == lines[i] {
      assert "" + lines[i] == lines[i];
    }
    assert Indented(lines, "") == lines;
    JoinSplit(s);
  }

  /** indentAllLines: the loop over strings.Split's pieces, then
      strings.Join. */
  method IndentAllLines(s: string, indent: string) returns (r: string)
    ensures r == IndentLines(s, indent)
  {
    var lines := Split(s);
    var out: seq<string> := [];
    for i := 0 to |lines|
      invariant out == Indented(lines[..i], indent)
    {
      out := out + [indent + lines[i]];
    }
    assert lines[..|lines|] == lines;
    r := Join(out);
  }
}
