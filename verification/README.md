# Balanced TCGA subtype extraction, modelled in Dafny

This project models the core of a small pipeline. The pipeline takes TCGA
breast-cancer sample metadata and draws a class-balanced subset of it: a
fixed number of samples (80 by default) for each of the molecular subtypes
LumA, Basal and Her2.

The pipeline has three stages.

- **Grouping** (`filter_by_subtypes`). Each label is stripped of
  surrounding whitespace. The stripped label is compared, case-sensitively,
  with each subtype of interest in the fixed order LumA, Basal, Her2. Every
  other label is dropped.
- **Balancing** (`balance_and_extract_samples`). A group with at least `k`
  rows contributes `k` rows, drawn without replacement by a seeded draw
  (`random_state=42`). A smaller group contributes itself unchanged, and a
  warning is printed. The contributions are concatenated in group order.
- **Tally** (`validate_extraction_balance`). The rows of the balanced table
  are counted per raw label value. The labels are NOT stripped here.

In the model a table is a `seq<Record>`. A record is a sample id, a raw
label and opaque extra columns. Every stage is a pure function.

The seeded pandas draw becomes a `Selector`. A selector is a function from
the group size `n` and the count `k` to the positions drawn, listed in draw
order. It is constrained only by `ValidSelector`: every draw of `k <= n` rows
gives `k` distinct positions below `n`. Because the selector is a function,
runs are reproducible by construction. Because the same seed is reused for
every subtype, it does not depend on the label (see `Balancing.SharedSeed`).

Modules, one per concern of `extract_tcga_subtypes.py`:

- `Strings` (strings.dfy): Python's `str.strip()`, with the whitespace set of `str.isspace`.
- `Sequences` (sequences.dfy): subsequences, draws of distinct positions, and picking.
- `Tables` (tables.dfy): records and the stripped-label filter `data[data[col].str.strip() == s]`.
- `Grouping` (grouping.dfy): `filter_by_subtypes`.
- `Balancing` (balancing.dfy): the per-group sample, the shortfall warnings, and `pd.concat`.
- `Tally` (tally.dfy): `value_counts().to_dict()` and the sum of its counts.
- `Pipeline` (pipeline.dfy): the composition in `extract_tcga_subtypes_main`, and end-to-end properties.

Behaviour of the code that the model keeps:

- `balance_and_extract_samples` never checks the requested count. With
  `k = 0` every group takes the `sample(n=0)` branch, so the balanced table
  is empty and no error is raised (`Pipeline.ZeroCountEmpty`). A negative
  count is excluded by typing `k` as `nat`.
- pandas `sample` returns the drawn rows in draw order, and the model
  keeps that order within each subtype's block.
- The shortfall warning is a printed line and nothing else. The model
  records it as a list of warnings, each carrying the label, the requested
  count and the available count.
- `random_state=42` is passed on every call, so every subtype is drawn with
  the same freshly seeded generator.
- `pd.concat` joins the samples in the order of the grouping dictionary's
  keys, so the balanced table holds the LumA sample, then the Basal sample,
  then the Her2 sample (`Pipeline.ExtractTcgaSubtypes`).

The parameter annotation of `balance_and_extract_samples` closes its
bracket with `>` (extract_tcga_subtypes.py:49). As written, Python cannot
parse the file. The model follows the function body, which is unaffected.

## Model

| member | source | states |
|---|---|---|
| Strings.Trim | extract_tcga_subtypes.py:42 | the stripped label has no whitespace at either end |
| Strings.TrimLeftSpec | extract_tcga_subtypes.py:42 | leading strip keeps a suffix: everything dropped is whitespace, and what is kept does not start with whitespace |
| Strings.TrimRightSpec | extract_tcga_subtypes.py:42 | trailing strip keeps a prefix: everything dropped is whitespace, and what is kept does not end with whitespace |
| Strings.TrimSlice | extract_tcga_subtypes.py:42 | the stripped label is a slice of the raw label with only whitespace on either side |
| Strings.TrimUnique | extract_tcga_subtypes.py:42 | any clean text surrounded by whitespace strips to exactly that text, which characterises `strip` completely |
| Strings.TrimIdempotent | extract_tcga_subtypes.py:42 | stripping an already stripped label changes nothing |
| Tables.SelectSubtype | extract_tcga_subtypes.py:42 | every row kept by the mask has stripped label exactly equal to the subtype, case-sensitively |
| Tables.SelectCounts | extract_tcga_subtypes.py:42 | the mask keeps each matching row as often as it occurs in the table, and no other row |
| Tables.SelectOrdered | extract_tcga_subtypes.py:42 | the mask keeps rows in table order (an order-preserving subsequence) |
| Tables.SelectUnique | extract_tcga_subtypes.py:42 | the filter is the only order-preserving subsequence that holds exactly the matching rows |
| Tables.SelectAppend | extract_tcga_subtypes.py:42 | filtering a concatenation filters each part and concatenates the results |
| Tables.SelectAll | extract_tcga_subtypes.py:42 | a table whose rows all match is kept whole |
| Tables.SelectNone | extract_tcga_subtypes.py:40-43 | a subtype absent from the table gets an empty group, not an error |
| Sequences.PickSubMultiset | extract_tcga_subtypes.py:67 | rows drawn at distinct positions use no row more often than it occurs in the group |
| Grouping.SubtypesDistinct | extract_tcga_subtypes.py:37 | the three subtype names of interest are pairwise different |
| Grouping.GroupByNames | extract_tcga_subtypes.py:37-43 | one group per name, in list order; each group holds exactly the matching rows, in table order, with multiplicity |
| Grouping.FilterBySubtypes | extract_tcga_subtypes.py:25-46 | the keys are exactly LumA, Basal and Her2, in that order; group subtypes differ; each group is the order-preserving set of rows with that stripped label |
| Grouping.GroupsDisjoint | extract_tcga_subtypes.py:40-43 | no row is in two groups, and a row whose stripped label is not a subtype of interest is in no group |
| Grouping.GroupsCover | extract_tcga_subtypes.py:40-43 | together, groups for distinct names hold exactly the rows whose stripped label is one of the names |
| Grouping.GroupsWithinTable | extract_tcga_subtypes.py:37-43 | the grouping holds every row of a subtype of interest as often as the table does, and nothing else |
| Balancing.SampleGroup | extract_tcga_subtypes.py:66-74 | a group of N rows contributes min(N, k) rows: k rows at k distinct positions when N >= k, a permutation of the group when N == k, the group unchanged when N < k (nothing when N == 0) |
| Balancing.SharedSeed | extract_tcga_subtypes.py:67 | with the seed fixed at 42, two groups of the same size are sampled at the same positions |
| Balancing.Shortfalls | extract_tcga_subtypes.py:70-73 | a warning carrying (subtype, k, N) is issued for exactly the groups with N < k |
| Balancing.ShortfallFor | extract_tcga_subtypes.py:70-73 | with distinct subtypes, a group is warned about if and only if it is smaller than k |
| Balancing.Extracted | extract_tcga_subtypes.py:64-77 | the concatenated samples have the sum of min(N, k) rows, all taken from the groups, none more often than the groups hold it |
| Balancing.ExtractedOthers | extract_tcga_subtypes.py:64-77 | groups of other subtypes add no row of a given subtype to the concatenation |
| Balancing.ExtractedSelect | extract_tcga_subtypes.py:64-77 | the rows of each group's subtype in the concatenation are exactly that group's sample, in order |
| Balancing.ExtractedCons | extract_tcga_subtypes.py:64-77 | the first group's sample comes first in the concatenation, followed by the concatenation of the remaining groups' samples |
| Balancing.ExtractedThree | extract_tcga_subtypes.py:64-77 | for three groups, the concatenation is the first, second and third group's samples, in that order |
| Balancing.BalanceAndExtract | extract_tcga_subtypes.py:49-79 | concatenating an empty grouping fails as `pd.concat([])` does; otherwise the result has the sum of min(N, k) rows drawn from the groups, and each subtype's rows in it are that subtype's sample |
| Tally.CountValues | extract_tcga_subtypes.py:94 | one entry per distinct value, mapped to its number of occurrences |
| Tally.ValueCounts | extract_tcga_subtypes.py:94 | one entry per raw label present in the table, mapped to the number of rows carrying it |
| Tally.CountsSumToLength | extract_tcga_subtypes.py:94 | the counts of a tally add up to the number of values tallied |
| Tally.ValueCountsTotal | extract_tcga_subtypes.py:94 | the counts of the label tally add up to the number of rows |
| Pipeline.GroupsAreFilters | extract_tcga_subtypes.py:40-43 | each group of the grouping is the stripped-label filter for its subtype |
| Pipeline.BlocksInOrder | extract_tcga_subtypes.py:64-77 | the samples of the grouping are joined as the LumA block, then the Basal block, then the Her2 block, each drawn from that subtype's input rows |
| Pipeline.ExtractTcgaSubtypes | extract_tcga_subtypes.py:143-151 | the balanced table is the LumA, Basal and Her2 samples of the input's stripped-label filters, in that order, and the tally is taken over that table |
| Pipeline.OutputBySubtype | extract_tcga_subtypes.py:143-147 | the rows of a subtype in the balanced table are that subtype's sample of the input's rows |
| Pipeline.Balanced | extract_tcga_subtypes.py:64-77 | a subtype with N input rows has min(N, k) output rows: k drawn at distinct positions when N >= k, all N in input order otherwise |
| Pipeline.OutputSize | extract_tcga_subtypes.py:64-77 | the balanced table has min(N_LumA, k) + min(N_Basal, k) + min(N_Her2, k) rows |
| Pipeline.OutputFromInput | extract_tcga_subtypes.py:143-147 | every output row occurs in the input, no more often than there, and carries a subtype of interest |
| Pipeline.ShortfallWarned | extract_tcga_subtypes.py:70-73 | a subtype is warned about, with its available count, exactly when the input has fewer than k rows of it |
| Pipeline.ShortfallsNameSubtypes | extract_tcga_subtypes.py:64-73 | warnings name only subtypes of interest |
| Pipeline.CountsCoverOutput | extract_tcga_subtypes.py:151 | the tally of the balanced table accounts for every one of its rows |
| Pipeline.ZeroCountEmpty | extract_tcga_subtypes.py:66-67 | a requested count of 0 yields an empty balanced table, not an error |
| Pipeline.RawCountIsFilterSize | extract_tcga_subtypes.py:94 | when labels are stored stripped, the raw count of a label equals the size of its filter |
| Pipeline.OutputStripped | extract_tcga_subtypes.py:143-147 | a stripped input gives an output whose raw labels are all subtypes of interest |
| Pipeline.CountsReportBalance | extract_tcga_subtypes.py:147-151 | with stripped input labels, the tally reports each subtype present in the output with the count min(N, k) |
| Pipeline.CountsOnlySubtypes | extract_tcga_subtypes.py:147-151 | with stripped input labels, the tally has no key outside LumA, Basal and Her2 |
| Pipeline.DefaultScenario | extract_tcga_subtypes.py:117-151 | 100 LumA, 50 Basal and 90 Her2 rows with the default 80 give 210 rows, and only Basal is warned about (80 requested, 50 available) |
| Pipeline.TallyKeepsRawLabels | extract_tcga_subtypes.py:42 | a label stored as "LumA " joins the LumA group but is tallied under its own raw spelling |

## Left out

- `load_tcga_breast_cancer_data` and `save_extracted_data`: CSV file input and output. The model starts from an in-memory table and returns the balanced table without writing it.
- All console output: progress lines, the per-subtype counts and the printed tally. The shortfall warning is kept as data (`Balancing.Shortfall`).
- The random generator behind `random_state=42`: the draw is an abstract `Selector`, constrained only by what every draw without replacement guarantees.
- The `subtype_column` parameter: the pipeline always uses the default column. A record always carries its label, so the `KeyError` that pandas raises for a missing column is not modelled.
- Missing (NaN) labels: `str.strip` turns them into NaN, which never equals a subtype, and `value_counts` skips them. These are pandas null semantics with no counterpart in a `string` field.
- The order of the tally dictionary (`value_counts` sorts by decreasing count): the tally is a `map`.
- The row index: `pd.concat(..., ignore_index=True)` renumbers rows. The model identifies rows by position and content only.
- Negative sample counts: `sample(n=-1)` raises in pandas. The count is a `nat`, because the code never checks it.
- The `__main__` block: it is a fixed invocation of the pipeline with the default arguments.
- example_usage.py: it imports a function `extract_subtypes` that extract_tcga_subtypes.py does not define, so it has no behaviour to model.
