# process_faisalas: a Dafny model of the decision-record extractor

This project models the extraction core of `backend/edit_scraped/process_faisalas.py`.
The script reads scraped Nepali court decisions (`faisala`). Each is a JSON object with
`Title`, `Post Meta` and `Faisala Detail` (the body text). The script turns each one into
a record with a fixed schema:

- `uniqueId`, the decision number;
- `faisala_miti`, the decision date;
- `judges`;
- the two parties, `pakshya` and `bipakshya`, and their advocates;
- explicitly labelled precedents and laws;
- precedents and laws found implicitly in the prose.

Every field the script cannot resolve gets its default: "NA" for a text field and `[]` for
a list field.

The modules follow the script's structure:

| file | module | models |
|---|---|---|
| `option.dfy` | `Optional` | Python's `None` |
| `text.dfy` | `Text` | `str.strip` (the Unicode whitespace of `str.isspace` and `\s`), `split`, `"\n".join`, `str.replace`, `in` on strings, `list(set(...))` |
| `cleaners.dfy` | `Cleaners` | `clean_singleline_text`, `clean_multiline_text` |
| `extractor.dfy` | `FieldExtractor` | `extract_with_regex`, in single-value and multi-value mode |
| `implicit_law.dfy` | `ImplicitLaw` | `extract_implicit_kanoon_fast`, sentence splitting and keyword filter included |
| `unique_id.dfy` | `UniqueIds` | `unique_id_base_pattern` and the "निर्णय" → "नि." rewrite |
| `judge_block.dfy` | `JudgeBlocks` | the judge-block locator: metadata-block cut and the 12-line fallback scan |
| `record.dfy` | `Records` | the per-record logic: field calls, merge into the defaults, body rename |

### Patterns as parameters

The long field patterns on lines 9-67 are not modelled concretely. Each is a parameter:
a function from text to what `findall` returns (`FindResult`: the match strings, the
group tuples, or `Raised` when matching throws), or to the `group(0)` texts of `finditer`.
`Records.Patterns` bundles them.

The judge-block locator depends on two patterns, which are modelled concretely:

- the "date label" search `\n(फैसला मिति|आदेश मिति)\s*:`, on line 165;
- the case-number line test, on line 173.

It also depends on the lazy `^[\s\S]*?` head of `current_decision_metadata_block_pattern`.
Only the tail of that pattern, the dated line and the case-number line, is a parameter
(`metadataBlockAt`).

### The record-level result

The script's judge-block locator has a bug (see "## Findings"). The record-level members
therefore take a parameter `cut` (`JudgeBlocks.Cut`), which says which primary branch the
locator takes:

- `AsWritten` is the script as it stands: the judges are searched in "" whenever the
  metadata block is found;
- `Corrected` is the block the script evidently means to search.

`Records.CutsAgree` proves that the two differ in nothing but that `judges` value.
`Records.JudgesLostAsWritten` proves that, as written, the value is `[]`.

For either `cut`, `Records.ProcessRecord` states the whole output record:

- its key set;
- that every unrelated key of the input is kept;
- how the body moves to `Faisala_Detail_raw_text`;
- for every schema field, the value the record's `Title`, `Post Meta` and `Faisala Detail`
  determine (`FieldHolds`).

A list field is stated by its elements and their lack of duplicates (`ListOf`), since
`list(set(...))` fixes no order.

`Records.FieldValueShape` then proves what every schema field of an output holds:

- a list field holds a list without duplicates;
- a text field holds a string that is "NA" or not blank.

### Where the code differs from what a reader might expect

The model follows the code in each case:

- **A body that is the empty string.** One might expect such a record to get no
  raw-text field. The code tests `faisala_detail_raw is not None` (line 211), so an empty body
  moves to `Faisala_Detail_raw_text` as "". `Records.MoveBody` states the code's rule.
- **Errors.** One might expect a failing record to be logged and skipped. The script
  has no handler around the per-record logic (lines 152-214). A `Title` or
  `Faisala Detail` that is truthy but not a string would make the pattern search raise
  and end the run. `Records.ProcessRecord` therefore requires each of them to be a string
  or falsy.

  `Post Meta` reaches `findall` inside `extract_with_regex`'s handler, so any other value
  there yields "NA".

## Model

| member | source | states |
|---|---|---|
| Cleaners.CleanersKeepPassThrough | backend/edit_scraped/process_faisalas.py:122-131 | None, "" and "NA" pass through both cleaners unchanged |
| Cleaners.CleanSingleLineResult | backend/edit_scraped/process_faisalas.py:128-131 | the single-line cleaner returns None exactly when the input is all whitespace; otherwise it returns the input minus its leading and trailing whitespace: a non-empty trimmed slice of it with only whitespace on either side |
| Cleaners.CleanSingleLineIdempotent | backend/edit_scraped/process_faisalas.py:128-131 | cleaning a single-line value twice gives the same as cleaning it once |
| Cleaners.CleanMultiLineResult | backend/edit_scraped/process_faisalas.py:122-126 | the multi-line cleaner returns None exactly when the input is all whitespace; otherwise the result's lines are exactly the input's stripped non-blank lines, in order, and the result is trimmed and loses only whitespace |
| Cleaners.CleanMultiLineIdempotent | backend/edit_scraped/process_faisalas.py:122-126 | cleaning a block twice gives the same as cleaning it once |
| Cleaners.CleanersAgreeOnBlank | backend/edit_scraped/process_faisalas.py:122-131 | the two cleaners clean away exactly the same inputs |
| FieldExtractor.ExtractDefaults | backend/edit_scraped/process_faisalas.py:71-89 | a None text, or a pattern that raises, gives `[]` in multi mode and the single default otherwise |
| FieldExtractor.ExtractMultiResult | backend/edit_scraped/process_faisalas.py:76-81 | multi mode returns a duplicate-free list holding exactly the values that survive cleaning; it returns the multi default when none survives |
| FieldExtractor.ExtractMultiOnTuples | backend/edit_scraped/process_faisalas.py:78-81 | with group tuples, a value is in the result iff some tuple's selected group is non-empty and cleans to that value |
| FieldExtractor.SelectGroupsMembers | backend/edit_scraped/process_faisalas.py:78 | the selected groups are exactly the non-empty groups at the index, taken from the tuples long enough to have one |
| FieldExtractor.SelectGroupsRaises | backend/edit_scraped/process_faisalas.py:78-89 | a non-positive group index beyond a short tuple makes `m[group_index-1]` raise, and the result is the multi default |
| FieldExtractor.CleanEachMembers | backend/edit_scraped/process_faisalas.py:80 | a cleaned value is kept iff it comes from a non-empty item and cleans to non-empty text |
| FieldExtractor.ExtractSingleFirstOnly | backend/edit_scraped/process_faisalas.py:82-85 | single mode depends only on the first match string |
| FieldExtractor.ExtractSingleFirstRowOnly | backend/edit_scraped/process_faisalas.py:82-84 | single mode depends only on the first group tuple |
| FieldExtractor.ExtractSingleGroupChoice | backend/edit_scraped/process_faisalas.py:84 | from a tuple, single mode takes the selected group when it is non-empty, otherwise the first group |
| FieldExtractor.ExtractSingleLineValue | backend/edit_scraped/process_faisalas.py:82-87 | with the single-line cleaner, the result is the stripped first match, or the default when that is blank |
| FieldExtractor.ExtractMultiLineValue | backend/edit_scraped/process_faisalas.py:82-87 | with the multi-line cleaner, the result is the default when the first match is blank; otherwise it is a clean block whose lines are the match's stripped non-blank lines, in order |
| ImplicitLaw.ExtractImplicitKanoon | backend/edit_scraped/process_faisalas.py:92-119 | an empty or missing body gives `[]`; otherwise the result has no duplicates and holds exactly the candidate citations of the sentences |
| ImplicitLaw.CandidatesMembers | backend/edit_scraped/process_faisalas.py:105-117 | a candidate comes from some sentence that is non-blank after stripping, contains a keyword, and has a match of the precise pattern that strips to it; and every such match is a candidate |
| ImplicitLaw.CitationOrigin | backend/edit_scraped/process_faisalas.py:100-117 | every citation is trimmed and comes from a stripped, keyword-bearing sentence that holds no "।" or newline |
| ImplicitLaw.KeywordGate | backend/edit_scraped/process_faisalas.py:97-111 | a body in which no sentence has a keyword yields no citations |
| UniqueIds.UniqueIdMatchSound | backend/edit_scraped/process_faisalas.py:8 | a match is a prefix of the title: "निर्णय नं.", whitespace, then the whole run of digits |
| UniqueIds.UniqueIdMatchComplete | backend/edit_scraped/process_faisalas.py:8 | a title that starts with text of that shape is matched, and the match covers at least that text |
| UniqueIds.UniqueIdRewrite | backend/edit_scraped/process_faisalas.py:157 | the rewrite turns only the leading "निर्णय" into "नि.", so the id reads "नि. नं." plus the number and is never blank or "NA" |
| JudgeBlocks.LocateJudgeBlockAsWritten | backend/edit_scraped/process_faisalas.py:162-175 | the locator as written: "" whenever the metadata block is found, and otherwise the fallback block |
| JudgeBlocks.LocateJudgeBlock | backend/edit_scraped/process_faisalas.py:162-175 | the judge block is the corrected locator's block, and it is a prefix of the body |
| JudgeBlocks.FallbackJudgeBlock | backend/edit_scraped/process_faisalas.py:169-175 | the loop over the first 12 lines returns the lines before the first anchor line, or 7 lines when there is none |
| JudgeBlocks.FallbackLimitMeans | backend/edit_scraped/process_faisalas.py:169-174 | the fallback limit is below 12, no line before it is an anchor, and when an anchor was found the line at the limit is one |
| JudgeBlocks.FirstAnchorMeans | backend/edit_scraped/process_faisalas.py:170-174 | the scan stops at the first anchor among the first 12 lines and reports none when none of them is one |
| JudgeBlocks.CutBeforeDatedLabelMeans | backend/edit_scraped/process_faisalas.py:165-167 | the cut is a prefix that holds no dated label, and it ends at the first dated label when it cut anything |
| JudgeBlocks.PrimaryBlockMeans | backend/edit_scraped/process_faisalas.py:162-167 | with the metadata block found, the primary block is a prefix of the body before the block; it holds no dated label and it stops at the first one |
| JudgeBlocks.PrimaryBlockAsWrittenIsEmpty | backend/edit_scraped/process_faisalas.py:162-164 | as written, whenever the metadata block is found, the primary block is "" |
| JudgeBlocks.SampleLosesJudges | backend/edit_scraped/process_faisalas.py:162-178 | on a sample body, the code as written searches an empty block, while the corrected locator returns the bench line starting "माननीय" |
| JudgeBlocks.JudgeBlockIsPrefix | backend/edit_scraped/process_faisalas.py:162-175 | whichever branch is taken, the judge block is a prefix of the body |
| Records.DecisionNumber | backend/edit_scraped/process_faisalas.py:155-157 | a decision number is found exactly when the title is truthy and matches; it is then the rewritten match, and it never loses to the default |
| Records.DecisionDate | backend/edit_scraped/process_faisalas.py:158 | the decision date is the single-line extraction from `Post Meta` (its default when `Post Meta` is not a string), and is "NA" or not blank |
| Records.BodyField | backend/edit_scraped/process_faisalas.py:160-191 | one body field, as what its extractor allows: judges from the judge block of the chosen `cut`, text fields cleaned as blocks, and list fields as their element sets without duplicates |
| Records.ExtractBodyFields | backend/edit_scraped/process_faisalas.py:160-191 | a non-empty body yields exactly the nine body fields, each holding what its extractor returns |
| Records.ImplicitPrecedentsMembers | backend/edit_scraped/process_faisalas.py:186-188 | the implicit precedents have no duplicates and are exactly the non-blank stripped texts of the pattern's non-empty matches |
| Records.JudgesLostAsWritten | backend/edit_scraped/process_faisalas.py:162-178 | as written, a body in which the metadata block is found gets `judges` = `[]` |
| Records.CutsAgree | backend/edit_scraped/process_faisalas.py:162-191 | the as-written and corrected records agree on every field except `judges`, and on `judges` too when no metadata block is found |
| Records.ExtractFields | backend/edit_scraped/process_faisalas.py:152-191 | `uniqueId` is extracted iff the title matches; `faisala_miti` always is; the body fields are extracted iff the body is truthy; each holds what its extractor returns |
| Records.ShouldReplace | backend/edit_scraped/process_faisalas.py:201-207 | a value replaces its default iff it is a non-empty list, a string that is neither blank nor "NA", or any other non-null value |
| Records.AssembleDefaults | backend/edit_scraped/process_faisalas.py:194-207 | the payload has exactly the eleven schema fields; each is the extracted value when that one overrides, and the default otherwise |
| Records.Named | backend/edit_scraped/process_faisalas.py:194-200 | the payload written under its JSON keys has exactly the eleven schema keys |
| Records.NamedAt | backend/edit_scraped/process_faisalas.py:194-200 | each field is written under its own key |
| Records.MoveBody | backend/edit_scraped/process_faisalas.py:211-214 | `Faisala Detail` is always removed; the body moves to `Faisala_Detail_raw_text` iff the key is present and not null; every other key is kept |
| Records.MergeFields | backend/edit_scraped/process_faisalas.py:152-207 | after the merge every schema field holds what the record determines: the extracted value, or the default when nothing was extracted |
| Records.PayloadHolds | backend/edit_scraped/process_faisalas.py:194-207 | since every extracted value is settled (it overrides, or it equals its default), the merge never changes what a field holds |
| Records.LayOut | backend/edit_scraped/process_faisalas.py:209-214 | the payload is laid over a copy of the record and the body moves; the exact key set, the raw-text rules, every unrelated key and every schema field are stated |
| Records.ProcessRecord | backend/edit_scraped/process_faisalas.py:152-214 | the output record's key set, its body rename, the keys it keeps, and every schema field's value as determined by `Title`, `Post Meta` and `Faisala Detail`; with `cut` = AsWritten this is the script as written |
| Records.FieldValueShape | backend/edit_scraped/process_faisalas.py:178-207 | every schema field of an output is either a list without duplicates or a string that is "NA" or not blank |
| Records.BodyFieldShape | backend/edit_scraped/process_faisalas.py:178-191 | the values a body field can take are a list without duplicates or a string that is "NA" or not blank |
| Records.UniqueIdSettled | backend/edit_scraped/process_faisalas.py:155-157 | a rewritten decision number always overrides its default |

## Left out

- Reading the source directory, the file loop, `json.load`, `json.dump`, timing and the progress prints (lines 140-153, 216-220) are I/O. The model processes one already-loaded record.
- The field patterns of lines 9-67 are parameters. The model proves what the code does with whatever they return, not what they match. The exceptions are the anchors of the judge-block locator and the decision number.
- `FieldExtractor.ExtractWithRegex`: the debug field name and the error print (line 88) are left out. Only the fact that an exception yields the default is kept.
- `FieldExtractor.ExtractMulti`: the `isinstance(matches[0], tuple)` test on the first match only is modelled by `FindResult` being all strings or all tuples, which is what `findall` returns.
- `list(set(...))` has no defined order in Python. `Text.Dedup` keeps first occurrences. Every record-level contract (`Records.ListOf`) speaks only of a list's elements and its lack of duplicates. `FieldExtractor.ExtractMultiResult` and `Records.ImplicitPrecedentsMembers` do the same.
- JSON numbers are integers; floats are not modelled. The key order of the output object is not modelled either, because the model uses maps.
- `Records.ProcessRecord`: a truthy `Title` or `Faisala Detail` that is not a string crashes the script. The model excludes it by precondition instead of modelling the crash.
- `Records.AssembleDefaults`: Python iterates `current_extracted_values` in insertion order; the loop visits keys in any order. The result does not depend on the order, since each key is written at most once.
- `Records.ListOf`: it fixes the elements of the `judges`, `ullikhit_najir_implicit` and `ullikhit_kanoon_implicit` lists, not their order, because `list(set(...))` fixes no order.
- `Records.JudgesLostAsWritten`: it assumes the judges pattern finds nothing in "". `judges_pattern` needs "माननीय", but the pattern is a parameter of the model.

## Findings

| source | as written | input that shows it | evidently intended | confidence | as-written member | corrected member |
|---|---|---|---|---|---|---|
| backend/edit_scraped/process_faisalas.py:13-17 | `current_decision_metadata_block_pattern` starts with `^(?:[\s\S]*?)` and is compiled without MULTILINE. The match therefore always starts at 0, `match.start()` is 0, and `potential_block` is "" whenever the block is found. | The body "माननीय न्यायाधीश श्री क ख\nफैसला मिति : २०७८/०३/१५\n०७६-CI-०१२३\n": the judges are searched in "" and come out as `[]` | the block before the dated line, i.e. the body up to the end of the lazy prefix, cut again at the first dated label | not executed | JudgeBlocks.LocateJudgeBlockAsWritten, JudgeBlocks.PrimaryBlockAsWrittenIsEmpty, JudgeBlocks.SampleLosesJudges, Records.JudgesLostAsWritten | JudgeBlocks.LocateJudgeBlock, JudgeBlocks.PrimaryBlockMeans, Records.CutsAgree |
