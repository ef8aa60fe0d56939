/**
 * Where the judges' names are looked for. A decision body starts with the
 * bench ("माननीय न्यायाधीश ...", "honourable justice ..."), then a metadata
 * block: a dated line "फैसला मिति : <date>" or "आदेश मिति : <date>"
 * (decision date, order date) and a case-number line. The judge block is
 * the text before that metadata block. When the metadata block cannot be
 * found, the block is the first lines of the body, up to the first anchor
 * line among the first twelve, or the first seven lines.
 */
module JudgeBlocks {
  import opened Optional
  import opened Text

  /** "फैसला मिति", decision date. */
  const DecisionDate: string := "फैसला मिति"

  /** "आदेश मिति", order date. */
  const OrderDate: string := "आदेश मिति"

  /** How many lines the fallback looks at, `lines[:12]`. */
  const ScanLines: nat := 12

  /** The fallback's limit when no anchor is found. */
  const DefaultLimit: nat := 7

  // ----- searching -----

  /** The leftmost position `p` in `from..|s|` at which `at(s, p)` holds:
      where `re.search` reports a match that `at` recognises. */
  function FirstMatch(s: string, at: (string, nat) -> bool, from: nat): Option<nat>
    decreases |s| + 1 - from
  {
    if from > |s| then None
    else if at(s, from) then Some(from)
    else FirstMatch(s, at, from + 1)
  }

  lemma {:induction false} FirstMatchMeans(s: string, at: (string, nat) -> bool, from: nat)
    ensures FirstMatch(s, at, from).Some? ==>
              var p := FirstMatch(s, at, from).value;
              from <= p <= |s| && at(s, p) && forall q :: from <= q < p ==> !at(s, q)
    ensures FirstMatch(s, at, from).None? ==> forall q :: from <= q <= |s| ==> !at(s, q)
    decreases |s| + 1 - from
  {
    if from <= |s| && !at(s, from) {
      FirstMatchMeans(s, at, from + 1);
    }
  }

  /** `word`, then `\s*`, then ":" at position `j`. As no whitespace is a
      colon, the greedy `\s*` never has to give characters back. */
  predicate LabelColonAt(s: string, j: int, word: string)
  {
    && OccursAt(s, word, j)
    && var e := j + |word|;
       var k := e + Lead(s[e..]);
       k < |s| && s[k] == ':'
  }

  /** `\n(?:फैसला मिति|आदेश मिति)\s*:` matches at position `i`. */
  predicate DatedLabelAt(s: string, i: nat)
  {
    i < |s| && s[i] == '\n' && (LabelColonAt(s, i + 1, DecisionDate) || LabelColonAt(s, i + 1, OrderDate))
  }

  /** Lines 165-167: `potential` up to the first dated line in it, or all of it. */
  function CutBeforeDatedLabel(potential: string): string
  {
    match FirstMatch(potential, DatedLabelAt, 0)
    case Some(i) => if i <= |potential| then potential[..i] else potential
    case None => potential
  }

  // ----- the primary branch -----

  /** `current_decision_metadata_block_pattern.search(body)`: the pattern is
      a lazy `^[\s\S]*?` prefix followed by the metadata block, whose regex
      is the parameter `tailAt` (it holds at the position of the block's
      leading "\n"). The result is the end of the lazy prefix, the first
      position where the block starts, or None when there is none. */
  function MetadataBlockAt(tailAt: (string, nat) -> bool, body: string): Option<nat>
  {
    FirstMatch(body, tailAt, 0)
  }

  /** `judge_block_match.start()` as the source computes it: the pattern
      begins with `^` and is compiled without MULTILINE, so any match starts
      at position 0, whatever the lazy prefix covers. */
  function MatchStartAsWritten(tailAt: (string, nat) -> bool, body: string): Option<nat>
  {
    if MetadataBlockAt(tailAt, body).Some? then Some(0) else None
  }

  /** Lines 164-167 as written: `body[:match.start()]`, cut again before the
      first dated line. */
  function PrimaryBlockAsWritten(tailAt: (string, nat) -> bool, body: string): string
    requires MetadataBlockAt(tailAt, body).Some?
  {
    CutBeforeDatedLabel(body[..MatchStartAsWritten(tailAt, body).value])
  }

  /** Lines 164-167 as intended: the text before the metadata block, cut
      again before the first dated line. */
  function PrimaryBlock(tailAt: (string, nat) -> bool, body: string): string
    requires MetadataBlockAt(tailAt, body).Some?
  {
    FirstMatchMeans(body, tailAt, 0);
    CutBeforeDatedLabel(body[..MetadataBlockAt(tailAt, body).value])
  }

  // ----- the fallback branch -----

  /** The case-number character class of line 173:
      `[०-९०-९০-৯\s\-CRCIOWS.]`. */
  predicate IsCaseNumberChar(c: char)
  {
    ('०' <= c <= '९') || ('০' <= c <= '৯') || IsSpace(c)
    || c == '-' || c == 'C' || c == 'R' || c == 'I' || c == 'O' || c == 'W' || c == 'S' || c == '.'
  }

  /** `re.match(r"^[...]+$", line)` on a stripped line (which has no trailing
      newline for `$` to skip): a non-empty run of that class. */
  predicate IsCaseNumberLine(line: string)
  {
    line != [] && forall i :: 0 <= i < |line| ==> IsCaseNumberChar(line[i])
  }

  /** Lines 171-173: line `i` starts a subject ("मुद्दा :", "विषयः"), or it is
      a dated line after the first line that is followed by a case number. */
  predicate IsAnchor(lines: seq<string>, i: nat)
  {
    && i < |lines|
    && var t := Strip(lines[i]);
       || StartsWith(t, "मुद्दा :")
       || StartsWith(t, "विषयः")
       || (&& (StartsWith(t, "फैसला मिति :") || StartsWith(t, "आदेश मिति :"))
           && i > 0 && i + 1 < |lines| && IsCaseNumberLine(Strip(lines[i + 1])))
  }

  /** The least `j` in `i..bound` with `p(j)`. */
  function FirstIndexFrom(p: nat -> bool, i: nat, bound: nat): Option<nat>
    decreases bound - i
  {
    if i >= bound then None
    else if p(i) then Some(i)
    else FirstIndexFrom(p, i + 1, bound)
  }

  /** `enumerate(lines[:12])`: the indices the loop visits. */
  function ScanBound(lines: seq<string>): nat
  {
    if |lines| < ScanLines then |lines| else ScanLines
  }

  /** The first anchor among `lines[i..]`, looking no further than line 12. */
  function FirstAnchorFrom(lines: seq<string>, i: nat): Option<nat>
  {
    FirstIndexFrom((j: nat) => IsAnchor(lines, j), i, ScanBound(lines))
  }

  /** `limit` after the loop of lines 170-174. */
  function FallbackLimit(lines: seq<string>): nat
  {
    match FirstAnchorFrom(lines, 0)
    case Some(i) => i
    case None => DefaultLimit
  }

  /** Python's `xs[:n]` for `n >= 0`. */
  function Take<T>(xs: seq<T>, n: nat): (r: seq<T>)
    ensures |r| <= |xs| && r == xs[..|r|]
  {
    if n <= |xs| then xs[..n] else xs
  }

  /** Line 175, the block the fallback produces. */
  function FallbackBlock(body: string): string
  {
    var lines := SplitOn(body, {'\n'});
    Join(Take(lines, FallbackLimit(lines)), '\n')
  }

  /** The scan of lines 169-175. */
  method FallbackJudgeBlock(body: string) returns (block: string)
    ensures block == FallbackBlock(body)
  {
    var lines := SplitOn(body, {'\n'});
    var limit := DefaultLimit;
    var i := 0;
    while i < |lines| && i < ScanLines
      invariant 0 <= i <= ScanLines
      invariant FirstAnchorFrom(lines, i) == FirstAnchorFrom(lines, 0)
      invariant limit == DefaultLimit
    {
      if IsAnchor(lines, i) {
        limit := i;
        break;
      }
      i := i + 1;
    }
    block := Join(Take(lines, limit), '\n');
  }

  // ----- both branches -----

  /** The judge block, as intended. */
  function JudgeBlock(tailAt: (string, nat) -> bool, body: string): string
  {
    if MetadataBlockAt(tailAt, body).Some? then PrimaryBlock(tailAt, body) else FallbackBlock(body)
  }

  /** The judge block as the source computes it. */
  function JudgeBlockAsWritten(tailAt: (string, nat) -> bool, body: string): string
  {
    if MetadataBlockAt(tailAt, body).Some? then PrimaryBlockAsWritten(tailAt, body) else FallbackBlock(body)
  }

  /** Which primary branch the locator takes: the source's, whose cut is
      always at position 0, or the corrected one. */
  datatype Cut = AsWritten | Corrected

  function JudgeBlockFor(cut: Cut, tailAt: (string, nat) -> bool, body: string): string
  {
    match cut
    case AsWritten => JudgeBlockAsWritten(tailAt, body)
    case Corrected => JudgeBlock(tailAt, body)
  }

  /** Lines 162-175 as the source runs them: once the metadata block is
      found, the judges are searched in nothing. */
  method LocateJudgeBlockAsWritten(tailAt: (string, nat) -> bool, body: string) returns (block: string)
    ensures block == JudgeBlockAsWritten(tailAt, body)
    ensures MetadataBlockAt(tailAt, body).Some? ==> block == ""
    ensures MetadataBlockAt(tailAt, body).None? ==> block == FallbackBlock(body)
  {
    var start := MatchStartAsWritten(tailAt, body);
    if start.Some? {
      block := CutBeforeDatedLabel(body[..start.value]);
      PrimaryBlockAsWrittenIsEmpty(tailAt, body);
    } else {
      block := FallbackJudgeBlock(body);
    }
  }

  /** Lines 162-175, with the primary branch cutting where the metadata
      block starts. */
  method LocateJudgeBlock(tailAt: (string, nat) -> bool, body: string) returns (block: string)
    ensures block == JudgeBlock(tailAt, body)
    ensures StartsWith(body, block)
  {
    var start := MetadataBlockAt(tailAt, body);
    if start.Some? {
      block := PrimaryBlock(tailAt, body);
    } else {
      block := FallbackJudgeBlock(body);
    }
    JudgeBlockIsPrefix(tailAt, body);
  }

  // ----- lemmas -----

  /** A cut before the first dated line keeps a prefix that holds no dated
      line, and when it cuts, a dated line starts right after it. */
  lemma CutBeforeDatedLabelMeans(potential: string)
    ensures var b := CutBeforeDatedLabel(potential);
            && StartsWith(potential, b)
            && (forall q :: 0 <= q < |b| ==> !DatedLabelAt(potential, q))
            && (b != potential ==> DatedLabelAt(potential, |b|))
  {
    FirstMatchMeans(potential, DatedLabelAt, 0);
  }

  /** The intended primary block is the text before the metadata block, up
      to the first dated line in that text. */
  lemma PrimaryBlockMeans(tailAt: (string, nat) -> bool, body: string)
    requires MetadataBlockAt(tailAt, body).Some?
    ensures var p := MetadataBlockAt(tailAt, body).value;
            var b := PrimaryBlock(tailAt, body);
            && p <= |body| && tailAt(body, p)
            && (forall q :: 0 <= q < p ==> !tailAt(body, q))
            && |b| <= p && b == body[..|b|]
            && (forall q :: 0 <= q < |b| ==> !DatedLabelAt(body[..p], q))
            && (|b| < p ==> DatedLabelAt(body[..p], |b|))
  {
    FirstMatchMeans(body, tailAt, 0);
    var p := MetadataBlockAt(tailAt, body).value;
    CutBeforeDatedLabelMeans(body[..p]);
  }

  /** However the metadata block is placed, the primary branch as written
      produces the empty block. */
  lemma PrimaryBlockAsWrittenIsEmpty(tailAt: (string, nat) -> bool, body: string)
    requires MetadataBlockAt(tailAt, body).Some?
    ensures PrimaryBlockAsWritten(tailAt, body) == ""
  {
    assert body[..0] == "";
    FirstMatchMeans("", DatedLabelAt, 0);
  }

  /** A sample body: the bench line, the decision date and the case number. */
  const SampleBody: string := SampleBench + "\nफैसला मिति : २०७८/०३/१५\n०७६-CI-०१२३\n"

  /** Its first line, "Honourable Justice Shri Ka Kha". */
  const SampleBench: string := "माननीय न्यायाधीश श्री क ख"

  /** Where the metadata block of the sample body starts: its first "\n". */
  const SampleBlockStart: nat := |SampleBench|

  /** The metadata-block regex of lines 15-16 matches the sample body at its
      first "\n" and nowhere before: the text before is the bench line. On
      that body the source's judge block is empty, so the judges pattern
      (which needs "माननीय") finds nothing, while the intended block is the
      bench line. */
  lemma SampleLosesJudges(tailAt: (string, nat) -> bool)
    requires tailAt(SampleBody, SampleBlockStart)
    requires forall q :: 0 <= q < SampleBlockStart ==> !tailAt(SampleBody, q)
    ensures JudgeBlockAsWritten(tailAt, SampleBody) == ""
    ensures JudgeBlock(tailAt, SampleBody) == SampleBench
    ensures StartsWith(JudgeBlock(tailAt, SampleBody), "माननीय")
  {
    FirstMatchMeans(SampleBody, tailAt, 0);
    var p := MetadataBlockAt(tailAt, SampleBody).value;
    assert p == SampleBlockStart;
    PrimaryBlockAsWrittenIsEmpty(tailAt, SampleBody);
    var bench := SampleBody[..p];
    assert bench == SampleBench;
    FirstMatchMeans(bench, DatedLabelAt, 0);
    forall q | 0 <= q <= |bench| ensures !DatedLabelAt(bench, q) {
      if q < |bench| {
        assert bench[q] != '\n';
      }
    }
  }

  lemma {:induction false} FirstIndexMeans(p: nat -> bool, i: nat, bound: nat)
    ensures FirstIndexFrom(p, i, bound).Some? ==>
              var a := FirstIndexFrom(p, i, bound).value;
              i <= a < bound && p(a) && forall j :: i <= j < a ==> !p(j)
    ensures FirstIndexFrom(p, i, bound).None? ==> forall j :: i <= j < bound ==> !p(j)
    decreases bound - i
  {
    if i < bound && !p(i) {
      FirstIndexMeans(p, i + 1, bound);
    }
  }

  /** The first anchor is found and it is the first one: no earlier line
      among the first twelve is an anchor. */
  lemma FirstAnchorMeans(lines: seq<string>)
    ensures FirstAnchorFrom(lines, 0).Some? ==>
              var a := FirstAnchorFrom(lines, 0).value;
              && a < ScanLines && a < |lines| && IsAnchor(lines, a)
              && forall j :: 0 <= j < a ==> !IsAnchor(lines, j)
    ensures FirstAnchorFrom(lines, 0).None? ==>
              forall j :: 0 <= j < ScanLines && j < |lines| ==> !IsAnchor(lines, j)
  {
    var p := (j: nat) => IsAnchor(lines, j);
    FirstIndexMeans(p, 0, ScanBound(lines));
    var r := FirstAnchorFrom(lines, 0);
    var bound := if r.Some? then r.value else ScanBound(lines);
    forall j: nat | j < bound ensures !IsAnchor(lines, j) {
      assert !p(j);
    }
  }

  /** The fallback keeps the lines before the first anchor among the first
      twelve, or the first seven lines when there is none. */
  lemma FallbackLimitMeans(lines: seq<string>)
    ensures FallbackLimit(lines) < ScanLines
    ensures forall j :: 0 <= j < FallbackLimit(lines) && j < |lines| ==> !IsAnchor(lines, j)
    ensures FallbackLimit(lines) < |lines| && FirstAnchorFrom(lines, 0).Some? ==> IsAnchor(lines, FallbackLimit(lines))
  {
    FirstAnchorMeans(lines);
  }

  /** The first `k` parts joined are a prefix of all of them joined. */
  lemma {:induction false} JoinTakePrefix(parts: seq<string>, k: nat, sep: char)
    requires k <= |parts|
    ensures StartsWith(Join(parts, sep), Join(parts[..k], sep))
  {
    if k == 1 {
      assert parts[..1] == [parts[0]];
    } else if k > 1 {
      var tail := parts[1..];
      JoinTakePrefix(tail, k - 1, sep);
      assert parts[..k][1..] == tail[..k - 1];
      assert Join(parts[..k], sep) == parts[0] + [sep] + Join(tail[..k - 1], sep);
    }
  }

  /** Whichever branch runs, the judge block is a prefix of the body. */
  lemma JudgeBlockIsPrefix(tailAt: (string, nat) -> bool, body: string)
    ensures StartsWith(body, JudgeBlock(tailAt, body))
  {
    if MetadataBlockAt(tailAt, body).Some? {
      PrimaryBlockMeans(tailAt, body);
    } else {
      var lines := SplitOn(body, {'\n'});
      JoinSplit(body, '\n');
      JoinTakePrefix(lines, |Take(lines, FallbackLimit(lines))|, '\n');
    }
  }
}
