/** The PDB property calculator: ATOM and HETATM records are picked out of
    the text of a PDB file, their element symbols (columns 12-13, counted
    from 0) are looked up in fixed tables, and five scalars are derived:
    the two molecular weights, the hydrogen-bond acceptor and donor counts
    at a given pH, and a placeholder logP. */
module Pdb {
  import opened Strings

  datatype Option<T> = None | Some(value: T)

  // ---------------------------------------------------------------------
  // Constant tables

  /** Atomic masses in daltons, keyed by element symbol (case-sensitive). */
  const AtomicWeights: map<string, real> :=
    map["H" := 1.0079, "C" := 12.0107, "N" := 14.0067, "O" := 15.9994]

  /** Elements eligible as hydrogen-bond acceptors. */
  const HbAcceptorAtoms: set<string> := {"O", "N"}

  /** Elements eligible as hydrogen-bond donors. */
  const HbDonorAtoms: set<string> := {"H", "N"}

  // ---------------------------------------------------------------------
  // Record extraction

  /** The lines that start with `prefix`, in their original order. */
  function FilterByPrefix(lines: seq<string>, prefix: string): (r: seq<string>)
    ensures |r| <= |lines|
    ensures forall k :: 0 <= k < |r| ==> StartsWith(r[k], prefix)
  {
    if lines == [] then []
    else
      var init := FilterByPrefix(lines[..|lines| - 1], prefix);
      var last := lines[|lines| - 1];
      assert lines == lines[..|lines| - 1] + [last];
      if StartsWith(last, prefix) then init + [last] else init
  }

  /** The records of type `entryType` in `pdbContent`: the lines between
      newline characters that start with that keyword. */
  function Entries(pdbContent: string, entryType: string): seq<string>
  {
    FilterByPrefix(Split(pdbContent, '\n'), entryType)
  }

  /** A line is kept exactly when it is one of the lines and starts with
      the keyword. */
  lemma {:induction false} FilterByPrefixMembers(lines: seq<string>, prefix: string)
    ensures forall l :: l in FilterByPrefix(lines, prefix) <==> l in lines && StartsWith(l, prefix)
  {
    if lines != [] {
      var init := lines[..|lines| - 1];
      FilterByPrefixMembers(init, prefix);
      assert lines == init + [lines[|lines| - 1]];
    }
  }

  /** Filtering distributes over concatenation, so the order of the lines
      is kept. */
  lemma {:induction false} FilterByPrefixAppend(a: seq<string>, b: seq<string>, prefix: string)
    ensures FilterByPrefix(a + b, prefix) == FilterByPrefix(a, prefix) + FilterByPrefix(b, prefix)
    decreases |b|
  {
    if b == [] {
      assert a + b == a;
    } else {
      var init := b[..|b| - 1];
      FilterByPrefixAppend(a, init, prefix);
      assert (a + b)[..|a + b| - 1] == a + init;
    }
  }

  /** With no line of the given type there is no record of it. */
  lemma {:induction false} FilterByPrefixNone(lines: seq<string>, prefix: string)
    requires forall l :: l in lines ==> !StartsWith(l, prefix)
    ensures FilterByPrefix(lines, prefix) == []
  {
    if lines != [] {
      var init := lines[..|lines| - 1];
      assert forall l :: l in init ==> l in lines;
      FilterByPrefixNone(init, prefix);
      assert lines[|lines| - 1] in lines;
    }
  }

  /** Collects the records of type `entryType`, pushing each matching line
      in turn. */
  method ExtractEntriesFromPdb(pdbContent: string, entryType: string) returns (entries: seq<string>)
    ensures entries == Entries(pdbContent, entryType)
  {
    var lines := Split(pdbContent, '\n');
    entries := [];
    for i := 0 to |lines|
      invariant entries == FilterByPrefix(lines[..i], entryType)
    {
      assert lines[..i + 1][..i] == lines[..i];
      if StartsWith(lines[i], entryType) {
        entries := entries + [lines[i]];
      }
    }
    assert lines[..|lines|] == lines;
  }

  // ---------------------------------------------------------------------
  // Element symbol

  /** The element symbol of a record: characters 12 and 13, trimmed. */
  function ElementSymbol(entry: string): string
  {
    Trim(Slice(entry, 12, 14))
  }

  /** The symbol is defined on every line and has at most 2 characters; a
      line of at most 12 characters gives the empty symbol, which is in no
      table. */
  lemma ElementSymbolBounds(entry: string)
    ensures |ElementSymbol(entry)| <= 2
    ensures |entry| <= 12 ==> ElementSymbol(entry) == []
  {
    var field := Slice(entry, 12, 14);
    SliceClamps(entry, 12, 14);
    var i := TrimSpec(field);
  }

  /** The symbol has no whitespace at either end. On a line of at least 14
      characters it is determined column by column: columns 12-13 when both
      are non-blank, column 13 alone when only column 12 is blank, column 12
      alone when only column 13 is blank, and empty when both are blank. */
  lemma ElementSymbolColumns(entry: string)
    ensures var sym := ElementSymbol(entry);
      sym == [] || (!IsWhitespace(sym[0]) && !IsWhitespace(sym[|sym| - 1]))
    ensures 14 <= |entry| && !IsWhitespace(entry[12]) && !IsWhitespace(entry[13]) ==>
      ElementSymbol(entry) == entry[12..14]
    ensures 14 <= |entry| && IsWhitespace(entry[12]) && !IsWhitespace(entry[13]) ==>
      ElementSymbol(entry) == entry[13..14]
    ensures 14 <= |entry| && !IsWhitespace(entry[12]) && IsWhitespace(entry[13]) ==>
      ElementSymbol(entry) == entry[12..13]
    ensures 14 <= |entry| && IsWhitespace(entry[12]) && IsWhitespace(entry[13]) ==>
      ElementSymbol(entry) == []
  {
    var field := Slice(entry, 12, 14);
    SliceClamps(entry, 12, 14);
    var i := TrimSpec(field);
    var sym := Trim(field);
    if 14 <= |entry| {
      assert field == [entry[12], entry[13]];
      if !IsWhitespace(entry[12]) && !IsWhitespace(entry[13]) {
        assert NoWhitespace(field);
      }
      if IsWhitespace(entry[12]) && !IsWhitespace(entry[13]) {
        assert sym != [] && sym[|sym| - 1] == entry[13];
        assert i == 1;
      }
    }
  }

  // ---------------------------------------------------------------------
  // Molecular weight

  /** The mass the weight table gives a symbol when it holds a (truthy,
      non-zero) mass for it, and 0 otherwise. */
  function SymbolWeight(sym: string): (w: real)
    ensures w >= 0.0
    ensures sym !in AtomicWeights ==> w == 0.0
  {
    if sym in AtomicWeights && AtomicWeights[sym] != 0.0 then AtomicWeights[sym] else 0.0
  }

  /** The weight a record contributes. */
  function EntryWeight(entry: string): real
  {
    SymbolWeight(ElementSymbol(entry))
  }

  /** The molecular weight of a list of records, accumulated left to right. */
  function SumWeights(entries: seq<string>): (w: real)
    ensures w >= 0.0
  {
    if entries == [] then 0.0
    else SumWeights(entries[..|entries| - 1]) + EntryWeight(entries[|entries| - 1])
  }

  /** The number of records whose element symbol is `sym`. */
  function CountSymbol(entries: seq<string>, sym: string): (n: nat)
    ensures n <= |entries|
  {
    if entries == [] then 0
    else CountSymbol(entries[..|entries| - 1], sym) + (if ElementSymbol(entries[|entries| - 1]) == sym then 1 else 0)
  }

  lemma SumWeightsStep(entries: seq<string>, i: nat)
    requires i < |entries|
    ensures SumWeights(entries[..i + 1]) == SumWeights(entries[..i]) + EntryWeight(entries[i])
  {
    assert entries[..i + 1][..i] == entries[..i];
  }

  /** Adds up the table weights of the records, skipping unknown elements. */
  method CalculateMolecularWeight(entries: seq<string>) returns (molecularWeight: real)
    ensures molecularWeight == SumWeights(entries)
  {
    molecularWeight := 0.0;
    for i := 0 to |entries|
      invariant molecularWeight == SumWeights(entries[..i])
    {
      SumWeightsStep(entries, i);
      var atomElement := ElementSymbol(entries[i]);
      if atomElement in AtomicWeights && AtomicWeights[atomElement] != 0.0 {
        molecularWeight := molecularWeight + AtomicWeights[atomElement];
      }
    }
    assert entries[..|entries|] == entries;
  }

  // ---------------------------------------------------------------------
  // Hydrogen-bond sites

  /** The two roles a hydrogen-bond site can play. */
  datatype Role = Acceptor | Donor

  /** The acceptor ionization table at `ph`: defined for exactly the
      eligible acceptor atoms (None stands for JavaScript's `undefined`). */
  function IsAcceptorAtGivenPh(atom: string, ph: real): (r: Option<bool>)
    ensures r.Some? <==> atom in HbAcceptorAtoms
  {
    if atom == "O" then Some(ph > 2.0)
    else if atom == "N" then Some(ph > 9.0)
    else None
  }

  /** The donor ionization table at `ph`: defined for exactly the eligible
      donor atoms. */
  function IsDonorAtGivenPh(atom: string, ph: real): (r: Option<bool>)
    ensures r.Some? <==> atom in HbDonorAtoms
  {
    if atom == "H" then Some(ph < 7.0)
    else if atom == "N" then Some(ph < 7.0)
    else None
  }

  function EligibleAtoms(role: Role): set<string>
  {
    match role
    case Acceptor => HbAcceptorAtoms
    case Donor => HbDonorAtoms
  }

  /** Whether a record is counted in `role` at `ph`: its symbol must be
      eligible, and only then is the ionization table consulted, so the
      table's undefined entries are never reached. Acceptors are O above
      pH 2 and N above pH 9; donors are H and N below pH 7 (all strict). */
  predicate IsCountedSite(role: Role, entry: string, ph: real)
    ensures IsCountedSite(role, entry, ph) ==> ElementSymbol(entry) in EligibleAtoms(role)
    ensures var sym := ElementSymbol(entry);
      role == Acceptor ==>
        (IsCountedSite(role, entry, ph) <==> (sym == "O" && ph > 2.0) || (sym == "N" && ph > 9.0))
    ensures var sym := ElementSymbol(entry);
      role == Donor ==>
        (IsCountedSite(role, entry, ph) <==> (sym == "H" || sym == "N") && ph < 7.0)
  {
    var sym := ElementSymbol(entry);
    match role
    case Acceptor => sym in HbAcceptorAtoms && IsAcceptorAtGivenPh(sym, ph) == Some(true)
    case Donor => sym in HbDonorAtoms && IsDonorAtGivenPh(sym, ph) == Some(true)
  }

  /** The number of records counted in `role` at `ph`. */
  function CountSites(entries: seq<string>, role: Role, ph: real): (n: nat)
    ensures n <= |entries|
  {
    if entries == [] then 0
    else CountSites(entries[..|entries| - 1], role, ph) + (if IsCountedSite(role, entries[|entries| - 1], ph) then 1 else 0)
  }

  /** Counts the records that are hydrogen-bond acceptors at `ph`. */
  method CountHydrogenBondAcceptors(entries: seq<string>, ph: real) returns (count: nat)
    ensures count == CountSites(entries, Acceptor, ph)
  {
    count := 0;
    for i := 0 to |entries|
      invariant count == CountSites(entries[..i], Acceptor, ph)
    {
      assert entries[..i + 1][..i] == entries[..i];
      var atomElement := ElementSymbol(entries[i]);
      if atomElement in HbAcceptorAtoms && IsAcceptorAtGivenPh(atomElement, ph) == Some(true) {
        count := count + 1;
      }
    }
    assert entries[..|entries|] == entries;
  }

  /** Counts the records that are hydrogen-bond donors at `ph`. */
  method CountHydrogenBondDonors(entries: seq<string>, ph: real) returns (count: nat)
    ensures count == CountSites(entries, Donor, ph)
  {
    count := 0;
    for i := 0 to |entries|
      invariant count == CountSites(entries[..i], Donor, ph)
    {
      assert entries[..i + 1][..i] == entries[..i];
      var atomElement := ElementSymbol(entries[i]);
      if atomElement in HbDonorAtoms && IsDonorAtGivenPh(atomElement, ph) == Some(true) {
        count := count + 1;
      }
    }
    assert entries[..|entries|] == entries;
  }

  // ---------------------------------------------------------------------
  // logP and the whole computation

  /** The placeholder logP: donors minus acceptors, which is negative
      exactly when acceptors outnumber donors. */
  function CalculateLogP(hbAcceptors: int, hbDonors: int): (logP: int)
    ensures hbAcceptors + logP == hbDonors
    ensures logP < 0 <==> hbAcceptors > hbDonors
  {
    hbDonors - hbAcceptors
  }

  /** The five scalars shown for one file and one pH. */
  datatype Properties = Properties(
    atomWeight: real,
    hetatmWeight: real,
    hbAcceptors: nat,
    hbDonors: nat,
    logP: int)

  /** The computation done once the file has been read: weights per record
      type, site counts over the ATOM records followed by the HETATM
      records, and the logP of those counts. */
  function Compute(pdbContent: string, ph: real): (r: Properties)
    ensures r.atomWeight >= 0.0 && r.hetatmWeight >= 0.0
    ensures r.hbAcceptors <= |Entries(pdbContent, "ATOM")| + |Entries(pdbContent, "HETATM")|
    ensures r.hbDonors <= |Entries(pdbContent, "ATOM")| + |Entries(pdbContent, "HETATM")|
    ensures r.logP == r.hbDonors - r.hbAcceptors
  {
    var atomEntries := Entries(pdbContent, "ATOM");
    var hetatmEntries := Entries(pdbContent, "HETATM");
    var atomWeight := SumWeights(atomEntries);
    var hetatmWeight := SumWeights(hetatmEntries);
    var hbAcceptors := CountSites(atomEntries + hetatmEntries, Acceptor, ph);
    var hbDonors := CountSites(atomEntries + hetatmEntries, Donor, ph);
    Properties(atomWeight, hetatmWeight, hbAcceptors, hbDonors, CalculateLogP(hbAcceptors, hbDonors))
  }

  /** The load handler's computation, step by step as the script runs it. */
  method CalculateProperties(pdbContent: string, ph: real) returns (r: Properties)
    ensures r == Compute(pdbContent, ph)
  {
    var atomEntries := ExtractEntriesFromPdb(pdbContent, "ATOM");
    var hetatmEntries := ExtractEntriesFromPdb(pdbContent, "HETATM");
    var atomWeight := CalculateMolecularWeight(atomEntries);
    var hetatmWeight := CalculateMolecularWeight(hetatmEntries);
    var hbAcceptors := CountHydrogenBondAcceptors(atomEntries + hetatmEntries, ph);
    var hbDonors := CountHydrogenBondDonors(atomEntries + hetatmEntries, ph);
    var logP := CalculateLogP(hbAcceptors, hbDonors);
    r := Properties(atomWeight, hetatmWeight, hbAcceptors, hbDonors, logP);
  }
}
