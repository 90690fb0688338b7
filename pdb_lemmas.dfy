/** Properties of the PDB property calculator: additivity and order
    independence of the weight and of the counts, their closed forms in
    terms of how often each element occurs, the strict pH thresholds and
    the behaviour of the whole computation. */
module PdbLemmas {
  import opened Strings
  import opened Pdb

  // ---------------------------------------------------------------------
  // Additivity over concatenated record lists

  lemma {:induction false} SumWeightsAppend(a: seq<string>, b: seq<string>)
    ensures SumWeights(a + b) == SumWeights(a) + SumWeights(b)
    decreases |b|
  {
    if b == [] {
      assert a + b == a;
    } else {
      var init := b[..|b| - 1];
      SumWeightsAppend(a, init);
      assert (a + b)[..|a + b| - 1] == a + init;
    }
  }

  lemma {:induction false} CountSymbolAppend(a: seq<string>, b: seq<string>, sym: string)
    ensures CountSymbol(a + b, sym) == CountSymbol(a, sym) + CountSymbol(b, sym)
    decreases |b|
  {
    if b == [] {
      assert a + b == a;
    } else {
      var init := b[..|b| - 1];
      var last := b[|b| - 1];
      CountSymbolAppend(a, init, sym);
      assert (a + b)[..|a + b| - 1] == a + init;
      assert (a + b)[|a + b| - 1] == last;
      assert CountSymbol(b, sym) == CountSymbol(init, sym) + (if ElementSymbol(last) == sym then 1 else 0);
    }
  }

  lemma {:induction false} CountSitesAppend(a: seq<string>, b: seq<string>, role: Role, ph: real)
    ensures CountSites(a + b, role, ph) == CountSites(a, role, ph) + CountSites(b, role, ph)
    decreases |b|
  {
    if b == [] {
      assert a + b == a;
    } else {
      var init := b[..|b| - 1];
      CountSitesAppend(a, init, role, ph);
      assert (a + b)[..|a + b| - 1] == a + init;
    }
  }

  // ---------------------------------------------------------------------
  // Closed forms: everything depends only on how often each symbol occurs

  /** The weight is the table mass of each known element times its number
      of records; every other symbol contributes nothing. */
  lemma {:induction false} WeightBySymbolCounts(entries: seq<string>)
    ensures SumWeights(entries) ==
      1.0079 * CountSymbol(entries, "H") as real +
      12.0107 * CountSymbol(entries, "C") as real +
      14.0067 * CountSymbol(entries, "N") as real +
      15.9994 * CountSymbol(entries, "O") as real
  {
    if entries != [] {
      var init := entries[..|entries| - 1];
      var sym := ElementSymbol(entries[|entries| - 1]);
      WeightBySymbolCounts(init);
      assert CountSymbol(entries, "H") == CountSymbol(init, "H") + (if sym == "H" then 1 else 0);
      assert CountSymbol(entries, "C") == CountSymbol(init, "C") + (if sym == "C" then 1 else 0);
      assert CountSymbol(entries, "N") == CountSymbol(init, "N") + (if sym == "N" then 1 else 0);
      assert CountSymbol(entries, "O") == CountSymbol(init, "O") + (if sym == "O" then 1 else 0);
      EntryWeightBySymbol(entries[|entries| - 1]);
    }
  }

  lemma EntryWeightBySymbol(entry: string)
    ensures var sym := ElementSymbol(entry);
      EntryWeight(entry) ==
        (if sym == "H" then 1.0079 else 0.0) + (if sym == "C" then 12.0107 else 0.0) +
        (if sym == "N" then 14.0067 else 0.0) + (if sym == "O" then 15.9994 else 0.0)
  {
    SymbolWeightTable(ElementSymbol(entry));
  }

  lemma SymbolWeightTable(sym: string)
    ensures SymbolWeight(sym) ==
        (if sym == "H" then 1.0079 else 0.0) + (if sym == "C" then 12.0107 else 0.0) +
        (if sym == "N" then 14.0067 else 0.0) + (if sym == "O" then 15.9994 else 0.0)
  {
  }

  /** Acceptors are the O records when pH > 2 plus the N records when pH > 9. */
  lemma {:induction false} AcceptorsBySymbolCounts(entries: seq<string>, ph: real)
    ensures CountSites(entries, Acceptor, ph) ==
      (if ph > 2.0 then CountSymbol(entries, "O") else 0) +
      (if ph > 9.0 then CountSymbol(entries, "N") else 0)
  {
    if entries != [] {
      AcceptorsBySymbolCounts(entries[..|entries| - 1], ph);
    }
  }

  /** Donors are the H and N records when pH < 7, and none otherwise. */
  lemma {:induction false} DonorsBySymbolCounts(entries: seq<string>, ph: real)
    ensures CountSites(entries, Donor, ph) ==
      if ph < 7.0 then CountSymbol(entries, "H") + CountSymbol(entries, "N") else 0
  {
    if entries != [] {
      DonorsBySymbolCounts(entries[..|entries| - 1], ph);
    }
  }

  // ---------------------------------------------------------------------
  // Order independence

  /** Reordering the records does not change how often a symbol occurs. */
  lemma {:induction false} CountSymbolPermutation(a: seq<string>, b: seq<string>, sym: string)
    requires multiset(a) == multiset(b)
    ensures CountSymbol(a, sym) == CountSymbol(b, sym)
    decreases |a|
  {
    if a == [] {
      assert |b| == |multiset(b)| == 0;
    } else {
      var n := |a| - 1;
      var j := MatchLast(a, b);
      var rest := b[..j] + b[j + 1..];
      CountSymbolPermutation(a[..n], rest, sym);
      CountSymbolRemoveAt(b, j, sym);
    }
  }

  /** The last record of `a` occurs in its permutation `b` at `j`, and the
      rest of `a` is a permutation of `b` without position `j`. */
  lemma MatchLast(a: seq<string>, b: seq<string>) returns (j: nat)
    requires a != [] && multiset(a) == multiset(b)
    ensures j < |b| && b[j] == a[|a| - 1]
    ensures multiset(a[..|a| - 1]) == multiset(b[..j] + b[j + 1..])
  {
    var n := |a| - 1;
    var last := a[n];
    assert a == a[..n] + [last];
    assert last in multiset(b);
    j :| 0 <= j < |b| && b[j] == last;
    assert b == b[..j] + [last] + b[j + 1..];
    assert multiset(a[..n]) == multiset(a) - multiset{last};
    assert multiset(b[..j] + b[j + 1..]) == multiset(b) - multiset{last};
  }

  /** Taking the record at `j` out of a list lowers the count of its symbol
      by one and leaves the other counts alone. */
  lemma CountSymbolRemoveAt(b: seq<string>, j: nat, sym: string)
    requires j < |b|
    ensures CountSymbol(b, sym) ==
      CountSymbol(b[..j] + b[j + 1..], sym) + (if ElementSymbol(b[j]) == sym then 1 else 0)
  {
    var one := [b[j]];
    assert b == b[..j] + (one + b[j + 1..]);
    CountSymbolAppend(b[..j], one + b[j + 1..], sym);
    CountSymbolAppend(one, b[j + 1..], sym);
    CountSymbolAppend(b[..j], b[j + 1..], sym);
    assert one[..0] == [];
  }

  /** The weight of a record list does not depend on its order. */
  lemma SumWeightsPermutation(a: seq<string>, b: seq<string>)
    requires multiset(a) == multiset(b)
    ensures SumWeights(a) == SumWeights(b)
  {
    WeightBySymbolCounts(a);
    WeightBySymbolCounts(b);
    CountSymbolPermutation(a, b, "H");
    CountSymbolPermutation(a, b, "C");
    CountSymbolPermutation(a, b, "N");
    CountSymbolPermutation(a, b, "O");
  }

  /** Neither count depends on the order of the records. */
  lemma CountSitesPermutation(a: seq<string>, b: seq<string>, role: Role, ph: real)
    requires multiset(a) == multiset(b)
    ensures CountSites(a, role, ph) == CountSites(b, role, ph)
  {
    CountSymbolPermutation(a, b, "H");
    CountSymbolPermutation(a, b, "N");
    CountSymbolPermutation(a, b, "O");
    match role
    case Acceptor =>
      AcceptorsBySymbolCounts(a, ph);
      AcceptorsBySymbolCounts(b, ph);
    case Donor =>
      DonorsBySymbolCounts(a, ph);
      DonorsBySymbolCounts(b, ph);
  }

  // ---------------------------------------------------------------------
  // pH dependence

  /** Raising the pH never lowers the acceptor count. */
  lemma {:induction false} AcceptorsMonotone(entries: seq<string>, ph1: real, ph2: real)
    requires ph1 <= ph2
    ensures CountSites(entries, Acceptor, ph1) <= CountSites(entries, Acceptor, ph2)
  {
    AcceptorsBySymbolCounts(entries, ph1);
    AcceptorsBySymbolCounts(entries, ph2);
  }

  /** Raising the pH never raises the donor count. */
  lemma {:induction false} DonorsAntitone(entries: seq<string>, ph1: real, ph2: real)
    requires ph1 <= ph2
    ensures CountSites(entries, Donor, ph2) <= CountSites(entries, Donor, ph1)
  {
    DonorsBySymbolCounts(entries, ph1);
    DonorsBySymbolCounts(entries, ph2);
  }

  lemma {:induction false} CountSymbolAll(entries: seq<string>, sym: string)
    requires forall k :: 0 <= k < |entries| ==> ElementSymbol(entries[k]) == sym
    ensures CountSymbol(entries, sym) == |entries|
  {
    if entries != [] {
      CountSymbolAll(entries[..|entries| - 1], sym);
    }
  }

  lemma {:induction false} CountSymbolNone(entries: seq<string>, sym: string)
    requires forall k :: 0 <= k < |entries| ==> ElementSymbol(entries[k]) != sym
    ensures CountSymbol(entries, sym) == 0
  {
    if entries != [] {
      CountSymbolNone(entries[..|entries| - 1], sym);
    }
  }

  /** Oxygen-only records are all acceptors above pH 2 and none at or below
      it: the comparison is strict. */
  lemma {:induction false} OxygenAcceptorThreshold(entries: seq<string>, ph: real)
    requires forall k :: 0 <= k < |entries| ==> ElementSymbol(entries[k]) == "O"
    ensures CountSites(entries, Acceptor, ph) == if ph > 2.0 then |entries| else 0
  {
    AcceptorsBySymbolCounts(entries, ph);
    CountSymbolAll(entries, "O");
    CountSymbolNone(entries, "N");
  }

  /** Nitrogen-only records are all acceptors above pH 9 and none at or
      below it. */
  lemma {:induction false} NitrogenAcceptorThreshold(entries: seq<string>, ph: real)
    requires forall k :: 0 <= k < |entries| ==> ElementSymbol(entries[k]) == "N"
    ensures CountSites(entries, Acceptor, ph) == if ph > 9.0 then |entries| else 0
  {
    AcceptorsBySymbolCounts(entries, ph);
    CountSymbolAll(entries, "N");
    CountSymbolNone(entries, "O");
  }

  /** Records of H or N are all donors below pH 7 and none at or above it. */
  lemma {:induction false} DonorThreshold(entries: seq<string>, ph: real)
    requires forall k :: 0 <= k < |entries| ==> ElementSymbol(entries[k]) in HbDonorAtoms
    ensures CountSites(entries, Donor, ph) == if ph < 7.0 then |entries| else 0
    decreases |entries|
  {
    if entries != [] {
      DonorThreshold(entries[..|entries| - 1], ph);
    }
  }

  // ---------------------------------------------------------------------
  // The whole computation

  /** The counts over the pooled records are the sums of the counts over
      the ATOM and the HETATM records. */
  lemma ComputePooledCounts(pdbContent: string, ph: real)
    ensures var atoms := Entries(pdbContent, "ATOM");
      var hetatms := Entries(pdbContent, "HETATM");
      var r := Compute(pdbContent, ph);
      r.hbAcceptors == CountSites(atoms, Acceptor, ph) + CountSites(hetatms, Acceptor, ph) &&
      r.hbDonors == CountSites(atoms, Donor, ph) + CountSites(hetatms, Donor, ph)
  {
    var atoms := Entries(pdbContent, "ATOM");
    var hetatms := Entries(pdbContent, "HETATM");
    CountSitesAppend(atoms, hetatms, Acceptor, ph);
    CountSitesAppend(atoms, hetatms, Donor, ph);
  }

  /** Pooling the HETATM records before the ATOM records gives the same
      counts. */
  lemma ComputePoolingOrder(pdbContent: string, ph: real)
    ensures var atoms := Entries(pdbContent, "ATOM");
      var hetatms := Entries(pdbContent, "HETATM");
      var r := Compute(pdbContent, ph);
      r.hbAcceptors == CountSites(hetatms + atoms, Acceptor, ph) &&
      r.hbDonors == CountSites(hetatms + atoms, Donor, ph)
  {
    var atoms := Entries(pdbContent, "ATOM");
    var hetatms := Entries(pdbContent, "HETATM");
    ComputePooledCounts(pdbContent, ph);
    CountSitesAppend(hetatms, atoms, Acceptor, ph);
    CountSitesAppend(hetatms, atoms, Donor, ph);
  }

  /** A file without ATOM or HETATM lines gives five zeros. */
  lemma ComputeWithoutRecords(pdbContent: string, ph: real)
    requires forall l :: l in Split(pdbContent, '\n') ==>
      !StartsWith(l, "ATOM") && !StartsWith(l, "HETATM")
    ensures Compute(pdbContent, ph) == Properties(0.0, 0.0, 0, 0, 0)
  {
    FilterByPrefixNone(Split(pdbContent, '\n'), "ATOM");
    FilterByPrefixNone(Split(pdbContent, '\n'), "HETATM");
    assert Entries(pdbContent, "ATOM") + Entries(pdbContent, "HETATM") == [];
  }

  // A small file: two ATOM records (O, H) and one HETATM record (N), each
  // with the element symbol right-justified in columns 12-13, and a final
  // newline.

  /** A record of type `keyword` whose columns 12-13 hold a space and then
      the one-letter symbol `c`. */
  predicate IsRecord(entry: string, keyword: string, c: char)
  {
    14 <= |entry| && StartsWith(entry, keyword) && entry[12] == ' ' && entry[13] == c &&
    '\n' !in entry
  }

  lemma RightJustifiedSymbol(entry: string, keyword: string, c: char)
    requires IsRecord(entry, keyword, c) && !IsWhitespace(c)
    ensures ElementSymbol(entry) == [c]
  {
    ElementSymbolColumns(entry);
    assert entry[13..14] == [c];
  }

  lemma ExampleLines(o: string, h: string, n: string)
    requires '\n' !in o && '\n' !in h && '\n' !in n
    ensures Split(o + "\n" + h + "\n" + n + "\n", '\n') == [o, h, n, ""]
  {
    var lines := [o, h, n, ""];
    assert Join(lines, '\n') == o + "\n" + h + "\n" + n + "\n" by {
      assert lines[1..] == [h, n, ""];
      assert lines[1..][1..] == [n, ""];
      assert lines[1..][1..][1..] == [""];
      assert Join([""], '\n') == "";
      assert Join([n, ""], '\n') == n + "\n";
      assert Join(lines[1..], '\n') == h + "\n" + n + "\n";
    }
    SplitJoin(lines, '\n');
  }

  lemma ExampleEntries(o: string, h: string, n: string)
    requires IsRecord(o, "ATOM", 'O') && IsRecord(h, "ATOM", 'H') && IsRecord(n, "HETATM", 'N')
    ensures Entries(o + "\n" + h + "\n" + n + "\n", "ATOM") == [o, h]
    ensures Entries(o + "\n" + h + "\n" + n + "\n", "HETATM") == [n]
  {
    ExampleLines(o, h, n);
    var lines := [o, h, n, ""];
    var three := lines[..3];
    var two := three[..2];
    var one := two[..1];
    assert three == [o, h, n];
    assert two == [o, h];
    assert one == [o];
    assert one[..0] == [];
    assert !StartsWith(n, "ATOM") by { assert n[0] == 'H'; }
    assert !StartsWith(o, "HETATM") by { assert o[0] == 'A'; }
    assert !StartsWith(h, "HETATM") by { assert h[0] == 'A'; }
    assert FilterByPrefix(one, "ATOM") == [o];
    assert FilterByPrefix(two, "ATOM") == [o, h];
    assert FilterByPrefix(three, "ATOM") == [o, h];
    assert FilterByPrefix(lines, "ATOM") == [o, h];
    assert FilterByPrefix(one, "HETATM") == [];
    assert FilterByPrefix(two, "HETATM") == [];
    assert FilterByPrefix(three, "HETATM") == [n];
    assert FilterByPrefix(lines, "HETATM") == [n];
  }

  lemma OxygenRecordFacts(o: string)
    requires IsRecord(o, "ATOM", 'O')
    ensures EntryWeight(o) == 15.9994
    ensures IsCountedSite(Acceptor, o, 7.5) && !IsCountedSite(Donor, o, 7.5)
  {
    RightJustifiedSymbol(o, "ATOM", 'O');
  }

  lemma HydrogenRecordFacts(h: string)
    requires IsRecord(h, "ATOM", 'H')
    ensures EntryWeight(h) == 1.0079
    ensures !IsCountedSite(Acceptor, h, 7.5) && !IsCountedSite(Donor, h, 7.5)
  {
    RightJustifiedSymbol(h, "ATOM", 'H');
  }

  lemma NitrogenRecordFacts(n: string)
    requires IsRecord(n, "HETATM", 'N')
    ensures EntryWeight(n) == 14.0067
    ensures !IsCountedSite(Acceptor, n, 7.5) && !IsCountedSite(Donor, n, 7.5)
  {
    RightJustifiedSymbol(n, "HETATM", 'N');
  }

  lemma ExampleWeights(o: string, h: string, n: string)
    requires EntryWeight(o) == 15.9994 && EntryWeight(h) == 1.0079 && EntryWeight(n) == 14.0067
    ensures SumWeights([o, h]) == 17.0073
    ensures SumWeights([n]) == 14.0067
  {
    var atoms := [o, h];
    var one := atoms[..1];
    assert one[..0] == [] && [n][..0] == [];
    assert SumWeights(one) == SumWeights([]) + EntryWeight(o);
    assert SumWeights(atoms) == SumWeights(one) + EntryWeight(h);
    assert SumWeights([n]) == SumWeights([]) + EntryWeight(n);
  }

  lemma ExampleCounts(o: string, h: string, n: string, role: Role, ph: real)
    requires IsCountedSite(role, o, ph) && !IsCountedSite(role, h, ph) && !IsCountedSite(role, n, ph)
    ensures CountSites([o, h, n], role, ph) == 1
  {
    var pooled := [o, h, n];
    var two := pooled[..2];
    var one := two[..1];
    assert one[..0] == [];
    assert CountSites(one, role, ph) == CountSites([], role, ph) + 1;
    assert CountSites(two, role, ph) == CountSites(one, role, ph) + 0;
    assert CountSites(pooled, role, ph) == CountSites(two, role, ph) + 0;
  }

  lemma ExampleNoCounts(o: string, h: string, n: string, role: Role, ph: real)
    requires !IsCountedSite(role, o, ph) && !IsCountedSite(role, h, ph) && !IsCountedSite(role, n, ph)
    ensures CountSites([o, h, n], role, ph) == 0
  {
    var pooled := [o, h, n];
    var two := pooled[..2];
    var one := two[..1];
    assert one[..0] == [];
    assert CountSites(one, role, ph) == CountSites([], role, ph) + 0;
    assert CountSites(two, role, ph) == CountSites(one, role, ph) + 0;
    assert CountSites(pooled, role, ph) == CountSites(two, role, ph) + 0;
  }

  /** The example file at pH 7.5: the ATOM weight is 15.9994 + 1.0079, the
      HETATM weight that of N, one acceptor (O, since 7.5 > 2 but not
      7.5 > 9), no donor (7.5 is not below 7), and a logP of -1. */
  lemma ExampleFile(o: string, h: string, n: string)
    requires IsRecord(o, "ATOM", 'O') && IsRecord(h, "ATOM", 'H') && IsRecord(n, "HETATM", 'N')
    ensures Compute(o + "\n" + h + "\n" + n + "\n", 7.5) == Properties(17.0073, 14.0067, 1, 0, -1)
  {
    ExampleEntries(o, h, n);
    OxygenRecordFacts(o);
    HydrogenRecordFacts(h);
    NitrogenRecordFacts(n);
    ExampleWeights(o, h, n);
    ExampleCounts(o, h, n, Acceptor, 7.5);
    ExampleNoCounts(o, h, n, Donor, 7.5);
    assert [o, h] + [n] == [o, h, n];
  }
}
