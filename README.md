# PDB property calculator, modelled in Dafny

This is a model of the computation in the Lipinski "rule of five" page script (`script.js`). The script reads the text of a Protein Data Bank (PDB) file and keeps the lines that start with `ATOM` or `HETATM`. For each line it takes the element symbol: characters 12 and 13 (counted from 0), trimmed. From those symbols it derives five values for a pH the user chooses:

- the molecular weight of the ATOM records;
- the molecular weight of the HETATM records;
- the number of hydrogen-bond acceptors;
- the number of hydrogen-bond donors;
- a placeholder logP, equal to donors minus acceptors.

The model has three files:

- `strings.dfy` (module `Strings`): the ECMAScript string operations the script relies on. These are `split` on one character, `startsWith`, `slice` with clamping, and `trim`, which uses the full ECMAScript WhiteSpace and LineTerminator set. `Join` is there as the inverse of `Split`.
- `pdb.dfy` (module `Pdb`): the constant tables and the functions that specify what the script computes. It also has one method for each loop in the script. Each method is proved equal to its specification function.
- `pdb_lemmas.dfy` (module `PdbLemmas`): properties of the specification:
  - additivity over concatenation and independence from record order;
  - closed forms for the weight and both counts, in terms of how many records carry each symbol;
  - the strict pH thresholds and how each count moves as the pH rises;
  - the end-to-end behaviour of the computation.

Weights are exact Dafny `real`s, because every table value is a decimal with 4 places. The pH is a `real`. Counts are `nat`s and the logP is an `int`.

`isAcceptorAtGivenpH` and `isDonorAtGivenpH` are modelled as returning `Option<bool>`, where `None` stands for JavaScript's `undefined` (element not in the table). The model keeps the script's order of checks: set membership first, then the predicate. So the `None` case never decides a count. `calculateLogP(hbAcceptors, hbDonors)` keeps the script's order of parameters and returns `hbDonors - hbAcceptors`.

Two details follow the code's literal behaviour:

- The weight test is JavaScript truthiness of the table value (`if (atomicWeights[atomElement])`), written as "in the table and non-zero". With this table that is the same as "in the table".
- The logP is an integer here, since it is a difference of two counts.

## Model

| member | source | states |
|---|---|---|
| `Strings.Split` | script.js:23 | always at least one piece, and no piece contains the separator |
| `Strings.JoinSplit` | script.js:23 | joining the pieces of a split gives back the original text |
| `Strings.SplitJoin` | script.js:23 | splitting the join of separator-free pieces gives back exactly those pieces, so `Split` is the unique such decomposition |
| `Strings.Slice` | script.js:39 | no contract of its own; `slice(12, 14)` with both ends clamped to the length, specified by `Strings.SliceClamps` |
| `Strings.SliceClamps` | script.js:39 | `slice(start, end)` is total: the result is empty when the range is empty or starts past the end, it is never longer than `end - start`, it equals `s[start..end]` when the line is long enough, and otherwise it is the suffix from `start` |
| `Strings.TrimStart` | script.js:39 | no contract of its own; the leading-whitespace half of `trim`, specified by `Strings.TrimStartSpec` |
| `Strings.TrimStartSpec` | script.js:39 | what is left is a suffix of the input; everything removed is whitespace; the result does not begin with whitespace |
| `Strings.TrimEnd` | script.js:39 | no contract of its own; the trailing-whitespace half of `trim`, specified by `Strings.TrimEndSpec` |
| `Strings.TrimEndSpec` | script.js:39 | what is left is a prefix of the input; everything removed is whitespace; the result does not end with whitespace |
| `Strings.Trim` | script.js:39 | no contract of its own; `trim()`, specified by `Strings.TrimSpec` |
| `Strings.TrimSpec` | script.js:39 | what `trim` keeps is an infix of the input, only whitespace is removed on either side, the result neither begins nor ends with whitespace, and an input without whitespace is returned unchanged |
| `Strings.StartsWith` | script.js:27 | no contract of its own; `line.startsWith(entryType)`: the keyword is no longer than the line and equals the line's first characters |
| `Pdb.FilterByPrefix` | script.js:22-33 | every kept line starts with the keyword, and the result is no longer than the input |
| `Pdb.FilterByPrefixMembers` | script.js:22-33 | a line is kept exactly when it occurs in the input and starts with the keyword |
| `Pdb.FilterByPrefixAppend` | script.js:26-30 | filtering distributes over concatenation, so the original line order is kept |
| `Pdb.FilterByPrefixNone` | script.js:26-30 | with no line starting with the keyword, the result is empty |
| `Pdb.Entries` | script.js:22-33 | no contract of its own; the records of one type, the filter of the `'\n'`-split lines, specified by `Pdb.FilterByPrefix`, `Pdb.FilterByPrefixMembers` and `Pdb.FilterByPrefixAppend` |
| `Pdb.ExtractEntriesFromPdb` | script.js:22-33 | the push loop over the lines returns exactly the filtered `'\n'`-split lines, in order |
| `Pdb.ElementSymbol` | script.js:39 | no contract of its own; `entry.slice(12, 14).trim()`, repeated at lines 52 and 65, specified by `Pdb.ElementSymbolBounds` and `Pdb.ElementSymbolColumns` |
| `Pdb.ElementSymbolBounds` | script.js:39 | the symbol is defined on every line, has at most 2 characters, and is empty on lines of at most 12 characters |
| `Pdb.ElementSymbolColumns` | script.js:39 | the symbol has no whitespace at either end, and on every line of at least 14 characters it is pinned down column by column: columns 12-13 when both are non-blank, column 13 alone when only column 12 is blank, column 12 alone when only column 13 is blank, and empty when both are blank |
| `Pdb.AtomicWeights` | script.js:11-17 | no contract of its own; the four masses H 1.0079, C 12.0107, N 14.0067 and O 15.9994, read back by `PdbLemmas.SymbolWeightTable` |
| `Pdb.SymbolWeight` | script.js:40-42 | non-negative, and 0 for every symbol outside the table |
| `Pdb.EntryWeight` | script.js:39-42 | no contract of its own; the table weight of a record's symbol, specified by `PdbLemmas.EntryWeightBySymbol` |
| `Pdb.SumWeights` | script.js:35-46 | the molecular weight is non-negative |
| `Pdb.CalculateMolecularWeight` | script.js:35-46 | the accumulating loop returns the sum of the entries' table weights |
| `Pdb.IsAcceptorAtGivenPh` | script.js:74-81 | the acceptor ionization table is defined for exactly the acceptor atoms {O, N} |
| `Pdb.IsDonorAtGivenPh` | script.js:83-90 | the donor ionization table is defined for exactly the donor atoms {H, N} |
| `Pdb.HbAcceptorAtoms` | script.js:19 | no contract of its own; the acceptor set {O, N}, whose role is stated by `Pdb.IsAcceptorAtGivenPh` and `Pdb.IsCountedSite` |
| `Pdb.HbDonorAtoms` | script.js:20 | no contract of its own; the donor set {H, N}, whose role is stated by `Pdb.IsDonorAtGivenPh` and `Pdb.IsCountedSite` |
| `Pdb.IsCountedSite` | script.js:48-72 | a counted symbol is always in the role's eligibility set; an acceptor is O with pH > 2 or N with pH > 9; a donor is H or N with pH < 7; all comparisons are strict |
| `Pdb.CountSites` | script.js:48-72 | the count is at most the number of entries |
| `Pdb.CountHydrogenBondAcceptors` | script.js:48-59 | the counting loop returns the number of entries that are acceptors at `ph` |
| `Pdb.CountHydrogenBondDonors` | script.js:61-72 | the counting loop returns the number of entries that are donors at `ph` |
| `Pdb.CalculateLogP` | script.js:92-96 | logP plus the acceptor count equals the donor count, and logP is negative exactly when acceptors outnumber donors |
| `Pdb.Compute` | script.js:105-120 | both weights are non-negative; each count is at most the number of ATOM plus HETATM records; logP equals donors minus acceptors |
| `Pdb.CalculateProperties` | script.js:105-120 | the load handler's sequence of calls computes exactly `Compute(content, ph)` |
| `PdbLemmas.SumWeightsAppend` | script.js:35-46 | the weight of `a + b` is the weight of `a` plus the weight of `b` |
| `PdbLemmas.CountSitesAppend` | script.js:110-111 | both counts over `a + b` are the sums of the counts over `a` and over `b` |
| `PdbLemmas.WeightBySymbolCounts` | script.js:11-17 | the weight is 1.0079·#H + 12.0107·#C + 14.0067·#N + 15.9994·#O, so every other symbol adds nothing |
| `PdbLemmas.SymbolWeightTable` | script.js:11-17 | the weight of a symbol is 1.0079 for H, 12.0107 for C, 14.0067 for N, 15.9994 for O and 0 for every other symbol |
| `PdbLemmas.EntryWeightBySymbol` | script.js:39-42 | the weight a record adds is the table mass of its trimmed symbol, and 0 when the symbol is not in the table |
| `PdbLemmas.AcceptorsBySymbolCounts` | script.js:74-81 | acceptors = (#O if pH > 2, else 0) + (#N if pH > 9, else 0) |
| `PdbLemmas.DonorsBySymbolCounts` | script.js:83-90 | donors = #H + #N if pH < 7, else 0 |
| `PdbLemmas.CountSymbolPermutation` | script.js:38-39 | reordering the records does not change how often a symbol occurs |
| `PdbLemmas.SumWeightsPermutation` | script.js:35-46 | the weight does not depend on the order of the records |
| `PdbLemmas.CountSitesPermutation` | script.js:48-72 | neither count depends on the order of the records |
| `PdbLemmas.AcceptorsMonotone` | script.js:77-78 | raising the pH never lowers the acceptor count |
| `PdbLemmas.DonorsAntitone` | script.js:86-87 | raising the pH never raises the donor count |
| `PdbLemmas.OxygenAcceptorThreshold` | script.js:77 | for oxygen-only records, the acceptor count is all of them when pH > 2 and 0 otherwise, including at pH = 2 |
| `PdbLemmas.NitrogenAcceptorThreshold` | script.js:78 | for nitrogen-only records, the acceptor count is all of them when pH > 9 and 0 otherwise, including at pH = 9 |
| `PdbLemmas.DonorThreshold` | script.js:86-87 | for H and N records, the donor count is all of them when pH < 7 and 0 otherwise, including at pH = 7 |
| `PdbLemmas.ComputePooledCounts` | script.js:110-111 | the pooled counts are the sums of the ATOM counts and the HETATM counts |
| `PdbLemmas.ComputePoolingOrder` | script.js:110-111 | pooling the HETATM records before the ATOM records gives the same counts |
| `PdbLemmas.ComputeWithoutRecords` | script.js:105-120 | a file with no ATOM or HETATM line gives all five outputs as 0 |
| `PdbLemmas.ExampleFile` | script.js:105-120 | the file has an ATOM O record, an ATOM H record and a HETATM N record. At pH 7.5 it gives ATOM weight 17.0073, HETATM weight 14.0067, 1 acceptor, 0 donors and logP −1 |

## Left out

- DOM element lookups and the writes of the results to the page (script.js:1-9, 114-121): these are user interface only.
- The click listener, the file selection and the asynchronous `FileReader` (script.js:98-104, 122-126): these are event and I/O plumbing. The model starts from the file's text as a string.
- `parseFloat` of the slider value and the `isNaN` guard (script.js:99-100): the model takes the pH as an already valid `real`, whose type has no NaN.
- IEEE-754 rounding of the accumulated weights and the `toFixed(4)` / `toFixed(2)` display formatting: weights are exact rationals in the model.
- `totalMass` (script.js:113): it is computed but never used.
- UTF-16: JavaScript strings are UTF-16 code units, and `slice` counts code units. The model's characters are Unicode scalar values. They differ only for a line with a character outside the Basic Multilingual Plane before column 14.
- Object property lookup: `atomicWeights[sym]` could in principle reach properties inherited from `Object.prototype`. No inherited property has a name of at most two characters, and a symbol is never longer than two. So the model treats the lookup as a plain table lookup.
- The whitespace set of `trim` follows the ECMAScript WhiteSpace and LineTerminator productions, with the space separators of current Unicode. It is not tied to the Unicode version of any particular JavaScript engine.
- Chemistry: the real PDB element columns (76-77) and real pKa or logP chemistry are not modelled. The fixed offsets 12-13 and the placeholder thresholds are kept exactly as written.
