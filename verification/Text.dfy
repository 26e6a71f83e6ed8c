/** The string functions the system leans on: splitting, joining and trimming. */
module Text {

  /** Unicode white space, as Go's unicode.IsSpace has it. */
  predicate IsSpace(c: char) {
    || '\t' <= c <= '\r' || c == ' ' || c == '\U{85}' || c == '\U{A0}' || c == '\U{1680}'
    || '\U{2000}' <= c <= '\U{200A}' || c == '\U{2028}' || c == '\U{2029}' || c == '\U{202F}'
    || c == '\U{205F}' || c == '\U{3000}'
  }

  function TrimLeft(s: string): string {
    if s != [] && IsSpace(s[0]) then TrimLeft(s[1..]) else s
  }

  function TrimRight(s: string): string {
    if s != [] && IsSpace(s[|s| - 1]) then TrimRight(s[..|s| - 1]) else s
  }

  function TrimSpace(s: string): string {
    TrimRight(TrimLeft(s))
  }

  predicate Trimmed(s: string) {
    s != [] ==> !IsSpace(s[0]) && !IsSpace(s[|s| - 1])
  }

  /** One more character in front of pieces already split. */
  function AddFirst(c: char, sep: char, rest: seq<string>): (r: seq<string>)
    requires rest != []
    ensures r != []
  {
    if c == sep then [[]] + rest else [[c] + rest[0]] + rest[1..]
  }

  lemma AddFirstAppend(c: char, sep: char, front: seq<string>, back: seq<string>)
    requires front != []
    ensures AddFirst(c, sep, front + back) == AddFirst(c, sep, front) + back
  {
  }

  /** The pieces between separators: always at least one. */
  function Split(s: string, sep: char): (r: seq<string>)
    ensures r != []
  {
    if s == [] then [[]] else AddFirst(s[0], sep, Split(s[1..], sep))
  }

  function Join(xs: seq<string>, sep: char): string {
    if xs == [] then []
    else if |xs| == 1 then xs[0]
    else xs[0] + [sep] + Join(xs[1..], sep)
  }

  /** The words between white space. */
  function Fields(s: string): seq<string> {
    if s == [] then []
    else if IsSpace(s[0]) then Fields(s[1..])
    else
      var rest := Fields(s[1..]);
      if |s| > 1 && !IsSpace(s[1]) && rest != [] then [[s[0]] + rest[0]] + rest[1..] else [[s[0]]] + rest
  }

  predicate Blank(s: string) {
    forall c <- s :: IsSpace(c)
  }

  lemma {:induction false} TrimLeftSuffix(s: string) returns (before: string)
    ensures s == before + TrimLeft(s) && Blank(before)
    ensures TrimLeft(s) != [] ==> !IsSpace(TrimLeft(s)[0])
  {
    before := [];
    if s != [] && IsSpace(s[0]) {
      var rest := TrimLeftSuffix(s[1..]);
      before := [s[0]] + rest;
    }
  }

  lemma {:induction false} TrimRightPrefix(s: string) returns (after: string)
    ensures s == TrimRight(s) + after && Blank(after)
    ensures TrimRight(s) != [] ==> !IsSpace(TrimRight(s)[|TrimRight(s)| - 1])
  {
    after := [];
    if s != [] && IsSpace(s[|s| - 1]) {
      var rest := TrimRightPrefix(s[..|s| - 1]);
      after := rest + [s[|s| - 1]];
    }
  }

  /** A string is white space, what trimming leaves, and white space; what is left is trimmed. */
  lemma TrimSpaceTrims(s: string) returns (before: string, after: string)
    ensures s == before + TrimSpace(s) + after && Blank(before) && Blank(after)
    ensures Trimmed(TrimSpace(s))
    ensures forall c <- TrimSpace(s) :: c in s
    ensures Trimmed(s) ==> TrimSpace(s) == s
  {
    before := TrimLeftSuffix(s);
    after := TrimRightPrefix(TrimLeft(s));
  }

  /** Nothing else is: the trimmed string inside white space is unique. */
  lemma TrimmedIsUnique(a: string, s: string, b: string)
    requires Blank(a) && Blank(b) && Trimmed(s)
    ensures TrimSpace(a + s + b) == s
  {
    TrimLeftSkips(a, s + b);
    assert a + (s + b) == a + s + b;
    if s == [] {
      TrimLeftSkips(b, []);
      assert s + b == b + [];
    } else {
      assert (s + b)[0] == s[0];
      TrimRightSkips(s, b);
    }
  }

  lemma BlankTrimsToNothing(s: string)
    ensures TrimSpace(s) == [] <==> Blank(s)
  {
    if Blank(s) {
      TrimmedIsUnique(s, [], []);
      assert s + [] + [] == s;
    } else {
      var before, after := TrimSpaceTrims(s);
    }
  }

  lemma {:induction false} TrimLeftSkips(a: string, s: string)
    requires Blank(a)
    ensures TrimLeft(a + s) == TrimLeft(s)
  {
    if a == [] {
      assert a + s == s;
    } else {
      assert (a + s)[1..] == a[1..] + s && a[0] in a;
      TrimLeftSkips(a[1..], s);
    }
  }

  lemma {:induction false} TrimRightSkips(s: string, b: string)
    requires Blank(b) && s != [] && !IsSpace(s[|s| - 1])
    ensures TrimRight(s + b) == s
  {
    if b == [] {
      assert s + b == s;
    } else {
      assert (s + b)[..|s + b| - 1] == s + b[..|b| - 1] && b[|b| - 1] in b;
      TrimRightSkips(s, b[..|b| - 1]);
    }
  }

  lemma {:induction false} SplitWhole(s: string, sep: char)
    requires sep !in s
    ensures Split(s, sep) == [s]
  {
    if s != [] {
      assert s[0] in s && s == [s[0]] + s[1..];
      SplitWhole(s[1..], sep);
    }
  }

  lemma {:induction false} SplitPieces(s: string, sep: char)
    ensures forall x <- Split(s, sep) :: sep !in x
  {
    if s != [] {
      SplitPieces(s[1..], sep);
    }
  }

  /** A separator splits: what comes before it and what comes after are split on their own. */
  lemma {:induction false} SplitAt(a: string, b: string, sep: char)
    ensures Split(a + [sep] + b, sep) == Split(a, sep) + Split(b, sep)
  {
    var s := a + [sep] + b;
    if a == [] {
      assert s[1..] == b;
    } else {
      SplitAt(a[1..], b, sep);
      assert s[1..] == a[1..] + [sep] + b && s[0] == a[0];
      AddFirstAppend(a[0], sep, Split(a[1..], sep), Split(b, sep));
    }
  }

  /** Joining and splitting are inverse on pieces without the separator; joining nothing is the one
      exception, as it splits to one empty piece. */
  lemma {:induction false} SplitJoin(xs: seq<string>, sep: char)
    requires forall x <- xs :: sep !in x
    ensures Split(Join(xs, sep), sep) == if xs == [] then [[]] else xs
  {
    if |xs| == 1 {
      SplitWhole(xs[0], sep);
    } else if |xs| > 1 {
      SplitJoin(xs[1..], sep);
      SplitWhole(xs[0], sep);
      SplitAt(xs[0], Join(xs[1..], sep), sep);
    }
  }

  lemma {:induction false} JoinSplit(s: string, sep: char)
    ensures Join(Split(s, sep), sep) == s
  {
    if s != [] {
      JoinSplit(s[1..], sep);
      var rest := Split(s[1..], sep);
      if s[0] == sep {
        assert ([[]] + rest)[1..] == rest;
      } else {
        assert ([[s[0]] + rest[0]] + rest[1..])[1..] == rest[1..];
      }
    }
  }
}
