/**
 Domain names as the name index sees them. A name is cut at its dots into labels, and the labels
 are listed from the top of the tree downwards, so that an ancestor is a prefix:
 "www.zone.com" is ["com", "zone", "www"]. Labels may be empty, which makes the cut total: every
 string is a path, and the trailing dot of a fully qualified name shows up as a leading "".
 */
module Names {

  type Path = seq<string>

  ghost predicate DotFree(p: Path) {
    forall i | 0 <= i < |p| :: '.' !in p[i]
  }

  /** A path that some string denotes. */
  ghost predicate IsPath(p: Path) {
    p != [] && DotFree(p)
  }

  function Reversed(s: string): (r: string)
    ensures |r| == |s|
  {
    if s == "" then "" else Reversed(s[1..]) + [s[0]]
  }

  lemma {:induction false} ReversedAt(s: string, i: nat)
    requires i < |s|
    ensures Reversed(s)[i] == s[|s| - 1 - i]
  {
    if i < |s| - 1 {
      ReversedAt(s[1..], i);
    }
  }

  lemma {:induction false} ReversedConcat(a: string, b: string)
    ensures Reversed(a + b) == Reversed(b) + Reversed(a)
  {
    if a == "" {
      assert a + b == b;
    } else {
      ReversedConcat(a[1..], b);
      assert (a + b)[1..] == a[1..] + b;
    }
  }

  lemma {:induction false} ReversedTwice(s: string)
    ensures Reversed(Reversed(s)) == s
  {
    if s != "" {
      ReversedTwice(s[1..]);
      ReversedConcat(Reversed(s[1..]), [s[0]]);
      assert Reversed([s[0]]) == [s[0]];
    }
  }

  lemma {:induction false} ReversedDots(s: string)
    ensures '.' in Reversed(s) <==> '.' in s
  {
    if s != "" {
      ReversedDots(s[1..]);
      assert s == [s[0]] + s[1..];
    }
  }

  /** Position of the first dot, or the length when there is none. */
  function FirstDot(s: string): (i: nat)
    ensures i <= |s| && '.' !in s[..i] && (i < |s| ==> s[i] == '.')
  {
    if s == "" || s[0] == '.' then 0 else
      assert s[..1 + FirstDot(s[1..])] == [s[0]] + s[1..][..FirstDot(s[1..])];
      1 + FirstDot(s[1..])
  }

  lemma {:induction false} FirstDotOf(head: string, rest: string)
    requires '.' !in head
    ensures FirstDot(head + "." + rest) == |head|
  {
    if head != "" {
      FirstDotOf(head[1..], rest);
      assert (head + "." + rest)[1..] == head[1..] + "." + rest;
    }
  }

  lemma NoDot(s: string)
    ensures FirstDot(s) == |s| <==> '.' !in s
  {
    assert s == s[..|s|];
  }

  /** The labels of a name, top down: the leftmost label comes last. */
  function Labels(s: string): Path
    decreases |s|
  {
    var i := FirstDot(s);
    if i == |s| then [s] else Labels(s[i + 1..]) + [s[..i]]
  }

  lemma {:induction false} LabelsArePath(s: string)
    ensures IsPath(Labels(s))
    decreases |s|
  {
    var i := FirstDot(s);
    if i < |s| {
      LabelsArePath(s[i + 1..]);
    } else {
      NoDot(s);
    }
  }

  function Text(p: Path): string
    requires p != []
  {
    if |p| == 1 then p[0] else p[|p| - 1] + "." + Text(p[..|p| - 1])
  }

  lemma TextBelow(up: Path, l: string)
    requires up != []
    ensures Text(up + [l]) == l + "." + Text(up)
  {
    assert (up + [l])[..|up|] == up;
  }

  lemma LabelsCut(s: string)
    ensures var i := FirstDot(s);
            Labels(s) == if i == |s| then [s] else Labels(s[i + 1..]) + [s[..i]]
  {
    hide FirstDot;
  }

  lemma TextOfOne(l: string)
    ensures Text([l]) == l
  {
  }

  lemma {:induction false} TextOfLabels(s: string)
    ensures Labels(s) != [] && Text(Labels(s)) == s
    decreases |s|
  {
    hide Labels, Text, FirstDot;
    LabelsCut(s);
    var i := FirstDot(s);
    if i == |s| {
      TextOfOne(s);
    } else {
      var head, rest := s[..i], s[i + 1..];
      TextOfLabels(rest);
      TextBelow(Labels(rest), head);
      assert s == head + "." + rest;
    }
  }

  lemma LabelsSplit(head: string, rest: string)
    requires '.' !in head
    ensures Labels(head + "." + rest) == Labels(rest) + [head]
  {
    var s := head + "." + rest;
    FirstDotOf(head, rest);
    assert s[|head| + 1..] == rest && s[..|head|] == head;
  }

  lemma {:induction false} LabelsOfText(p: Path)
    requires IsPath(p)
    ensures Labels(Text(p)) == p
  {
    var n := |p| - 1;
    if n == 0 {
      NoDot(p[0]);
    } else {
      LabelsOfText(p[..n]);
      LabelsSplit(p[n], Text(p[..n]));
      assert p == p[..n] + [p[n]];
    }
  }

  lemma Behind(head: string, rest: string, b: string)
    ensures (head + "." + rest) + "." + b == head + "." + (rest + "." + b)
  {
  }

  lemma LabelsBehind(head: string, rest: string, b: string)
    requires '.' !in head && Labels(rest + "." + b) == Labels(b) + Labels(rest)
    ensures Labels((head + "." + rest) + "." + b) == Labels(b) + Labels(head + "." + rest)
  {
    hide Labels;
    Behind(head, rest, b);
    LabelsSplit(head, rest);
    LabelsSplit(head, rest + "." + b);
    assert (Labels(b) + Labels(rest)) + [head] == Labels(b) + (Labels(rest) + [head]);
  }

  /** The labels of a name under another one. */
  lemma {:induction false} LabelsConcat(a: string, b: string)
    ensures Labels(a + "." + b) == Labels(b) + Labels(a)
    decreases |a|
  {
    hide Labels;
    var i := FirstDot(a);
    if i == |a| {
      NoDot(a);
      LabelsSplit(a, b);
      LabelsOfText([a]);
    } else {
      var head, rest := a[..i], a[i + 1..];
      LabelsConcat(rest, b);
      LabelsBehind(head, rest, b);
      assert a == head + "." + rest;
    }
  }

  /** What the radix tree is keyed by: every label written backwards and closed by a dot. */
  function Key(p: Path): string {
    if p == [] then "" else Key(p[..|p| - 1]) + (Reversed(p[|p| - 1]) + ".")
  }

  lemma Associative(a: string, b: string, c: string)
    ensures a + b + c == a + (b + c)
  {
  }

  lemma {:induction false} KeyConcat(p: Path, q: Path)
    ensures Key(p + q) == Key(p) + Key(q)
  {
    if q == [] {
      assert p + q == p;
    } else {
      var up, l := q[..|q| - 1], q[|q| - 1];
      KeyConcat(p, up);
      KeyBelow(p + up, l);
      assert p + q == p + up + [l];
      Associative(Key(p), Key(up), Reversed(l) + ".");
    }
  }

  lemma KeyHead(p: Path)
    requires p != []
    ensures Key(p) == Reversed(p[0]) + "." + Key(p[1..])
  {
    KeyConcat([p[0]], p[1..]);
    assert p == [p[0]] + p[1..];
    assert Key([p[0]]) == Reversed(p[0]) + ".";
  }

  lemma KeyBelow(up: Path, l: string)
    ensures Key(up + [l]) == Key(up) + (Reversed(l) + ".")
  {
    assert (up + [l])[..|up|] == up;
  }

  lemma ReversedBehindDot(s: string)
    ensures Reversed("." + s) == Reversed(s) + "."
  {
    assert ("." + s)[1..] == s;
  }

  lemma ReversedSplit(s: string, i: nat)
    requires i < |s| && s[i] == '.'
    ensures Reversed(s) == Reversed("." + s[i + 1..]) + Reversed(s[..i])
  {
    ReversedConcat(s[..i], "." + s[i + 1..]);
    assert s == s[..i] + ("." + s[i + 1..]);
  }

  /** Writing a name backwards behind a dot is the same as keying its labels. */
  lemma {:induction false} ReversedNameIsKey(s: string)
    ensures Reversed("." + s) == Key(Labels(s))
    decreases |s|
  {
    ReversedBehindDot(s);
    var i := FirstDot(s);
    if i < |s| {
      ReversedNameIsKey(s[i + 1..]);
      KeyBelow(Labels(s[i + 1..]), s[..i]);
      ReversedSplit(s, i);
    } else {
      KeyBelow([], s);
      assert Labels(s) == [] + [s];
    }
  }

  lemma {:induction false} SameHead(a: string, x: string, b: string, y: string)
    requires '.' !in a && '.' !in b
    requires a + "." + x <= b + "." + y
    ensures a == b && x <= y
  {
    if a == "" {
      assert (a + "." + x)[0] == '.' == (b + "." + y)[0];
      assert b == "";
      assert (a + "." + x)[1..] == x && (b + "." + y)[1..] == y;
    } else {
      assert (a + "." + x)[0] == a[0] == (b + "." + y)[0];
      assert b != "" && b[0] == a[0];
      assert (a + "." + x)[1..] == a[1..] + "." + x && (b + "." + y)[1..] == b[1..] + "." + y;
      SameHead(a[1..], x, b[1..], y);
      assert a == [a[0]] + a[1..] && b == [b[0]] + b[1..];
    }
  }

  lemma SameTopLabel(p: Path, q: Path)
    requires DotFree(p) && DotFree(q) && p != [] && q != [] && Key(p) <= Key(q)
    ensures p[0] == q[0] && Key(p[1..]) <= Key(q[1..])
  {
    KeyHead(p);
    KeyHead(q);
    ReversedDots(p[0]);
    ReversedDots(q[0]);
    SameHead(Reversed(p[0]), Key(p[1..]), Reversed(q[0]), Key(q[1..]));
    ReversedTwice(p[0]);
    ReversedTwice(q[0]);
  }

  lemma {:induction false} KeyPrefixMeansAncestor(p: Path, q: Path)
    requires DotFree(p) && DotFree(q) && Key(p) <= Key(q)
    ensures p <= q
  {
    if p != [] {
      KeyHead(p);
      SameTopLabel(p, q);
      KeyPrefixMeansAncestor(p[1..], q[1..]);
      assert p == [p[0]] + p[1..] && q == [q[0]] + q[1..];
    }
  }

  /** Character-wise prefix of keys is ancestry of names: a prefix never stops inside a label. */
  lemma {:induction false} KeyPrefixIsAncestor(p: Path, q: Path)
    requires DotFree(p) && DotFree(q)
    ensures Key(p) <= Key(q) <==> p <= q
  {
    if p <= q {
      KeyConcat(p, q[|p|..]);
      assert q == p + q[|p|..];
    } else if Key(p) <= Key(q) {
      KeyPrefixMeansAncestor(p, q);
    }
  }

  lemma KeyInjective(p: Path, q: Path)
    requires DotFree(p) && DotFree(q) && Key(p) == Key(q)
    ensures p == q
  {
    KeyPrefixIsAncestor(p, q);
    KeyPrefixIsAncestor(q, p);
  }

  /** Cutting a key right behind one of its dots gives the key of an ancestor. */
  lemma {:induction false} CutIsAncestor(q: Path, i: nat) returns (p: Path)
    requires DotFree(q) && i < |Key(q)| && Key(q)[i] == '.'
    ensures p != [] && p <= q && Key(p) == Key(q)[..i + 1]
  {
    var up := q[..|q| - 1];
    var last := Reversed(q[|q| - 1]);
    ReversedDots(q[|q| - 1]);
    if i < |Key(up)| {
      p := CutIsAncestor(up, i);
    } else {
      assert last == Key(q)[|Key(up)|..|Key(q)| - 1];
      p := q;
    }
  }

  function Count(s: string, c: char): nat {
    if s == "" then 0 else (if s[0] == c then 1 else 0) + Count(s[1..], c)
  }

  lemma {:induction false} CountConcat(a: string, b: string, c: char)
    ensures Count(a + b, c) == Count(a, c) + Count(b, c)
  {
    if a == "" {
      assert a + b == b;
    } else {
      CountConcat(a[1..], b, c);
      assert (a + b)[1..] == a[1..] + b;
    }
  }

  lemma {:induction false} CountNone(s: string, c: char)
    requires c !in s
    ensures Count(s, c) == 0
  {
    if s != "" {
      CountNone(s[1..], c);
    }
  }

  /** A name has one more label than it has dots. */
  lemma {:induction false} DotsOfText(p: Path)
    requires IsPath(p)
    ensures Count(Text(p), '.') == |p| - 1
  {
    var n := |p| - 1;
    CountNone(p[n], '.');
    if n > 0 {
      DotsOfText(p[..n]);
      CountConcat(p[n] + ".", Text(p[..n]), '.');
      CountConcat(p[n], ".", '.');
    }
  }
}
