/** Comma-separated environment settings, as the chart writes them and the server reads them. */
module CsvSettings {
  import opened Text

  /** What splitCSV keeps of one piece. */
  function Entry(piece: string): seq<string> {
    var p := TrimSpace(piece);
    if p == [] then [] else [p]
  }

  function Entries(pieces: seq<string>): seq<string> {
    if pieces == [] then [] else Entries(pieces[..|pieces| - 1]) + Entry(pieces[|pieces| - 1])
  }

  function Read(v: string): seq<string> {
    Entries(Split(v, ','))
  }

  method SplitCSV(v: string) returns (out: seq<string>)
    ensures out == Read(v)
  {
    out := [];
    var pieces := Split(v, ',');
    for i := 0 to |pieces|
      invariant out == Entries(pieces[..i])
    {
      assert pieces[..i + 1][..i] == pieces[..i];
      var p := TrimSpace(pieces[i]);
      if p != "" {
        out := out + [p];
      }
    }
    assert pieces[..|pieces|] == pieces;
  }

  /** An entry that survives being written into a list. */
  predicate Clean(x: string) {
    x != [] && Trimmed(x) && ',' !in x
  }

  predicate AllClean(xs: seq<string>) {
    forall x <- xs :: Clean(x)
  }

  lemma {:induction false} EntriesClean(pieces: seq<string>)
    requires forall p <- pieces :: ',' !in p
    ensures AllClean(Entries(pieces))
  {
    if pieces != [] {
      EntriesClean(pieces[..|pieces| - 1]);
      var _, _ := TrimSpaceTrims(pieces[|pieces| - 1]);
      assert pieces[|pieces| - 1] in pieces;
    }
  }

  lemma {:induction false} EntriesOfClean(xs: seq<string>)
    requires AllClean(xs)
    ensures Entries(xs) == xs
  {
    if xs != [] {
      assert xs[|xs| - 1] in xs;
      var _, _ := TrimSpaceTrims(xs[|xs| - 1]);
      EntriesOfClean(xs[..|xs| - 1]);
      assert xs == xs[..|xs| - 1] + [xs[|xs| - 1]];
    }
  }

  /** Reading never yields an empty, an untrimmed or a comma-carrying entry. */
  lemma ReadIsClean(v: string)
    ensures AllClean(Read(v))
  {
    SplitPieces(v, ',');
    EntriesClean(Split(v, ','));
  }

  /** Main result: reading gives back the list that was joined with commas if and only if every entry
      is non-empty, trimmed and comma-free. */
  lemma ReadUndoesJoin(xs: seq<string>)
    ensures Read(Join(xs, ',')) == xs <==> AllClean(xs)
  {
    ReadIsClean(Join(xs, ','));
    if AllClean(xs) {
      SplitJoin(xs, ',');
      EntriesOfClean(xs);
      if xs == [] {
        assert Entries([[]]) == Entries([]) + Entry([]);
      }
    }
  }

  /** Joining what was read and reading it again changes nothing, whatever the setting holds. */
  lemma RereadIsStable(v: string)
    ensures Read(Join(Read(v), ',')) == Read(v)
  {
    ReadIsClean(v);
    ReadUndoesJoin(Read(v));
  }
}
