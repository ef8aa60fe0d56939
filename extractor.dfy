/**
 * `extract_with_regex`, the generic apply-pattern-and-clean operation that
 * every single- and multi-value field goes through. The compiled pattern is
 * a parameter: what matters here is what `pattern.findall(text)` hands back
 * (strings for a pattern with at most one group, tuples of group values for
 * one with several, or an exception) and how the function post-processes it.
 */
module FieldExtractor {
  import opened Optional
  import opened Text
  import opened Cleaners

  /** The outcome of `pattern.findall(text)`. */
  datatype FindResult = Raised | Strings(items: seq<string>) | Tuples(rows: seq<seq<string>>)

  /** The `clean_func` argument: none, or one of the two cleaners. */
  datatype Cleaner = NoCleaner | SingleLineCleaner | MultiLineCleaner

  /** What `extract_with_regex` returns: a string in single mode, a list in multi mode. */
  datatype Field = Single(value: string) | Multi(values: seq<string>)

  /** `clean_func(item)`, or `str(item).strip()` when there is no cleaner;
      only the truthy results (Some non-empty string) are kept by the caller. */
  function CleanValue(c: Cleaner, s: string): Option<string>
  {
    match c
    case NoCleaner => Some(Strip(s))
    case SingleLineCleaner => CleanSingleLine(Some(s))
    case MultiLineCleaner => CleanMultiLine(Some(s))
  }

  /** Python's `xs[i]`, negative indices counting from the end; None is an IndexError. */
  function PyIndex(xs: seq<string>, i: int): (r: Option<string>)
    ensures r.Some? <==> -|xs| <= i < |xs|
  {
    if 0 <= i < |xs| then Some(xs[i])
    else if -|xs| <= i < 0 then Some(xs[|xs| + i])
    else None
  }

  /** `[m[group_index-1] for m in matches if len(m) >= group_index and m[group_index-1]]`;
      None when an index raises (possible only for a group index of 0 or less). */
  function SelectGroups(rows: seq<seq<string>>, gi: int): Option<seq<string>>
  {
    if rows == [] then Some([])
    else
      var m := rows[0];
      var here: Option<seq<string>> :=
        if |m| < gi then Some([])
        else match PyIndex(m, gi - 1)
          case None => None
          case Some(g) => Some(if g != "" then [g] else []);
      match here
      case None => None
      case Some(h) =>
        match SelectGroups(rows[1..], gi)
        case None => None
        case Some(t) => Some(h + t)
  }

  /** `[m for m in matches if m]` */
  function NonEmpty(items: seq<string>): seq<string>
  {
    if items == [] then []
    else (if items[0] != "" then [items[0]] else []) + NonEmpty(items[1..])
  }

  /** The selected group of every match, before cleaning; None when selecting raised. */
  function SelectedValues(found: FindResult, gi: int): Option<seq<string>>
  {
    match found
    case Raised => None
    case Strings(items) => Some(NonEmpty(items))
    case Tuples(rows) => SelectGroups(rows, gi)
  }

  /** `clean_func(item) for item in results if item and clean_func(item)` */
  function CleanEach(c: Cleaner, items: seq<string>): seq<string>
  {
    if items == [] then []
    else
      var v := CleanValue(c, items[0]);
      (if items[0] != "" && v.Some? && v.value != "" then [v.value] else []) + CleanEach(c, items[1..])
  }

  function NoMatches(found: FindResult): bool
  {
    match found
    case Raised => false
    case Strings(items) => items == []
    case Tuples(rows) => rows == []
  }

  /** Lines 76-81, with line 88's exception path. */
  function ExtractMulti(found: FindResult, gi: int, c: Cleaner, defaultMulti: seq<string>): seq<string>
  {
    if found.Raised? || NoMatches(found) then defaultMulti
    else match SelectedValues(found, gi)
      case None => defaultMulti
      case Some(results) => DedupOrDefault(CleanEach(c, results), defaultMulti)
  }

  /** Line 80's `list(set(...))` and line 81's fallback. */
  function DedupOrDefault(cleaned: seq<string>, defaultMulti: seq<string>): seq<string>
  {
    var d := Dedup(cleaned);
    if d != [] then d else defaultMulti
  }

  /** The value `result_to_clean` that lines 83-85 take from the first match:
      the selected group, else tuple element 0, else None (a falsy "" counts as None). */
  function FirstValue(found: FindResult, gi: int): Option<Option<string>>
    requires !found.Raised? && !NoMatches(found)
  {
    match found
    case Strings(items) => Some(if items[0] != "" then Some(items[0]) else None)
    case Tuples(rows) =>
      var m := rows[0];
      var fallback := if m != [] && m[0] != "" then Some(m[0]) else None;
      if |m| < gi then Some(fallback)
      else match PyIndex(m, gi - 1)
        case None => None
        case Some(g) => Some(if g != "" then Some(g) else fallback)
  }

  /** Lines 82-87, with line 88's exception path. */
  function ExtractSingle(found: FindResult, gi: int, c: Cleaner, defaultSingle: string): string
  {
    if found.Raised? || NoMatches(found) then defaultSingle
    else match FirstValue(found, gi)
      case None => defaultSingle
      case Some(v) => CleanOrDefault(c, v, defaultSingle)
  }

  /** Lines 86-87: clean a truthy value, and fall back to the default when
      there is none or cleaning leaves nothing. */
  function CleanOrDefault(c: Cleaner, v: Option<string>, defaultSingle: string): string
  {
    match v
    case None => defaultSingle
    case Some(x) =>
      var cleaned := CleanValue(c, x);
      if cleaned.Some? && cleaned.value != "" then cleaned.value else defaultSingle
  }

  /** extract_with_regex(pattern, text, multi=..., group_index=..., clean_func=...,
      default_val_single=..., default_val_multi=...) */
  function ExtractWithRegex(pattern: string -> FindResult, text: Option<string>, multi: bool, groupIndex: int,
                            clean: Cleaner, defaultSingle: string, defaultMulti: Option<seq<string>>): (r: Field)
    ensures r.Multi? <==> multi
    ensures text.None? && multi ==> r.values == if defaultMulti.Some? then defaultMulti.value else []
    ensures text.None? && !multi ==> r.value == defaultSingle
  {
    var dm := if defaultMulti.Some? then defaultMulti.value else [];
    if text.None? then (if multi then Multi(dm) else Single(defaultSingle))
    else
      var found := pattern(text.value);
      if multi then Multi(ExtractMulti(found, groupIndex, clean, dm))
      else Single(ExtractSingle(found, groupIndex, clean, defaultSingle))
  }

  // ----- what the result is made of -----

  /** One value that survives cleaning, taken from some selected group. */
  ghost predicate CleanedFrom(c: Cleaner, groups: seq<string>, x: string)
  {
    exists k :: 0 <= k < |groups| && groups[k] != "" && CleanValue(c, groups[k]) == Some(x) && x != ""
  }

  lemma {:induction false} CleanEachMembers(c: Cleaner, items: seq<string>)
    ensures forall x :: x in CleanEach(c, items) <==> CleanedFrom(c, items, x)
  {
    if items != [] {
      CleanEachMembers(c, items[1..]);
      forall x ensures x in CleanEach(c, items) <==> CleanedFrom(c, items, x) {
        if CleanedFrom(c, items[1..], x) {
          var k :| 0 <= k < |items[1..]| && items[1..][k] != "" && CleanValue(c, items[1..][k]) == Some(x) && x != "";
          assert items[k + 1] == items[1..][k];
        }
        if CleanedFrom(c, items, x) {
          var k :| 0 <= k < |items| && items[k] != "" && CleanValue(c, items[k]) == Some(x) && x != "";
          if k > 0 {
            assert items[1..][k - 1] == items[k];
            assert CleanedFrom(c, items[1..], x);
          }
        }
      }
    }
  }

  lemma {:induction false} NonEmptyMembers(items: seq<string>)
    ensures forall g :: g in NonEmpty(items) <==> g in items && g != ""
  {
    if items != [] {
      NonEmptyMembers(items[1..]);
      assert items == [items[0]] + items[1..];
    }
  }

  /** For a group index of 1 or more, selecting never raises, and it keeps the
      non-empty value of that group of every match long enough to have it. */
  lemma {:induction false} SelectGroupsMembers(rows: seq<seq<string>>, gi: int)
    requires gi >= 1
    ensures SelectGroups(rows, gi).Some?
    ensures forall g :: g in SelectGroups(rows, gi).value <==>
              exists k :: 0 <= k < |rows| && |rows[k]| >= gi && rows[k][gi - 1] == g && g != ""
  {
    if rows != [] {
      SelectGroupsMembers(rows[1..], gi);
      var t := SelectGroups(rows[1..], gi).value;
      forall g ensures g in SelectGroups(rows, gi).value <==>
                       exists k :: 0 <= k < |rows| && |rows[k]| >= gi && rows[k][gi - 1] == g && g != "" {
        if exists k :: 0 <= k < |rows| && |rows[k]| >= gi && rows[k][gi - 1] == g && g != "" {
          var k :| 0 <= k < |rows| && |rows[k]| >= gi && rows[k][gi - 1] == g && g != "";
          if k > 0 {
            assert rows[1..][k - 1] == rows[k];
          }
        }
        if g in t {
          var k :| 0 <= k < |rows[1..]| && |rows[1..][k]| >= gi && rows[1..][k][gi - 1] == g && g != "";
          assert rows[k + 1] == rows[1..][k];
        }
      }
    }
  }

  /** A group index of 0 or less selects from the end, Python-style; a match
      too short for it raises, and the exception yields the default. */
  lemma SelectGroupsRaises(rows: seq<seq<string>>, gi: int, k: nat, c: Cleaner, defaultMulti: seq<string>)
    requires k < |rows| && |rows[k]| < 1 - gi
    ensures SelectGroups(rows, gi).None?
    ensures ExtractMulti(Tuples(rows), gi, c, defaultMulti) == defaultMulti
  {
    SelectGroupsRaisesAt(rows, gi, k);
  }

  lemma {:induction false} SelectGroupsRaisesAt(rows: seq<seq<string>>, gi: int, k: nat)
    requires k < |rows| && |rows[k]| < 1 - gi
    ensures SelectGroups(rows, gi).None?
  {
    if k > 0 {
      assert rows[1..][k - 1] == rows[k];
      SelectGroupsRaisesAt(rows[1..], gi, k - 1);
    }
  }

  // ----- multi mode -----

  /** Multi mode: no duplicates; every element is a cleaned, non-empty value
      of the selected group of some match, and every such value is there;
      when nothing survives, the result is exactly the multi default. */
  lemma ExtractMultiResult(found: FindResult, gi: int, c: Cleaner, defaultMulti: seq<string>)
    requires SelectedValues(found, gi).Some?
    ensures var groups := SelectedValues(found, gi).value;
            var r := ExtractMulti(found, gi, c, defaultMulti);
            && ((exists x :: CleanedFrom(c, groups, x)) ==>
                  NoDups(r) && forall x :: x in r <==> CleanedFrom(c, groups, x))
            && (!(exists x :: CleanedFrom(c, groups, x)) ==> r == defaultMulti)
  {
    var groups := SelectedValues(found, gi).value;
    CleanEachMembers(c, groups);
    var cleaned := CleanEach(c, groups);
    var r := ExtractMulti(found, gi, c, defaultMulti);
    if NoMatches(found) {
      assert groups == [] by {
        match found
        case Strings(items) =>
        case Tuples(rows) =>
      }
      assert cleaned == [];
      assert r == defaultMulti;
    } else {
      assert r == DedupOrDefault(cleaned, defaultMulti);
      if exists x :: CleanedFrom(c, groups, x) {
        var x :| CleanedFrom(c, groups, x);
        assert x in Elems(Dedup(cleaned));
        var d := Dedup(cleaned);
        assert r == d;
        forall y ensures y in d <==> CleanedFrom(c, groups, y) {
          assert y in d <==> y in Elems(d);
          assert y in cleaned <==> y in Elems(cleaned);
        }
      } else if Dedup(cleaned) != [] {
        assert Dedup(cleaned)[0] in Elems(cleaned);
      }
    }
  }

  /** Multi mode over a pattern with several groups: the members are exactly
      the cleaned values of group `gi` of the matches. */
  lemma ExtractMultiOnTuples(rows: seq<seq<string>>, gi: int, c: Cleaner, defaultMulti: seq<string>, x: string)
    requires gi >= 1
    requires ExtractMulti(Tuples(rows), gi, c, defaultMulti) != defaultMulti
    ensures x in ExtractMulti(Tuples(rows), gi, c, defaultMulti) <==>
              exists k :: 0 <= k < |rows| && |rows[k]| >= gi && rows[k][gi - 1] != ""
                          && CleanValue(c, rows[k][gi - 1]) == Some(x) && x != ""
  {
    SelectGroupsMembers(rows, gi);
    ExtractMultiResult(Tuples(rows), gi, c, defaultMulti);
    var groups := SelectGroups(rows, gi).value;
    if CleanedFrom(c, groups, x) {
      var j :| 0 <= j < |groups| && groups[j] != "" && CleanValue(c, groups[j]) == Some(x) && x != "";
      assert groups[j] in groups;
    }
    if exists k :: 0 <= k < |rows| && |rows[k]| >= gi && rows[k][gi - 1] != ""
                   && CleanValue(c, rows[k][gi - 1]) == Some(x) && x != "" {
      var k :| 0 <= k < |rows| && |rows[k]| >= gi && rows[k][gi - 1] != ""
               && CleanValue(c, rows[k][gi - 1]) == Some(x) && x != "";
      var g := rows[k][gi - 1];
      assert g in groups;
      var j :| 0 <= j < |groups| && groups[j] == g;
      assert CleanedFrom(c, groups, x);
    }
  }

  /** With no text, or when matching raises, both modes return their default. */
  lemma ExtractDefaults(pattern: string -> FindResult, text: Option<string>, multi: bool, gi: int,
                        clean: Cleaner, defaultSingle: string)
    requires text.None? || pattern(text.value).Raised?
    ensures ExtractWithRegex(pattern, text, multi, gi, clean, defaultSingle, None)
            == if multi then Multi([]) else Single(defaultSingle)
  {
  }

  // ----- single mode -----

  /** Single mode looks at the first match only. */
  lemma ExtractSingleFirstOnly(first: string, more: seq<string>, gi: int, c: Cleaner, defaultSingle: string)
    ensures ExtractSingle(Strings([first] + more), gi, c, defaultSingle)
            == ExtractSingle(Strings([first]), gi, c, defaultSingle)
  {
    assert ([first] + more)[0] == first;
    assert FirstValue(Strings([first] + more), gi) == FirstValue(Strings([first]), gi);
  }

  lemma ExtractSingleFirstRowOnly(first: seq<string>, more: seq<seq<string>>, gi: int, c: Cleaner, defaultSingle: string)
    ensures ExtractSingle(Tuples([first] + more), gi, c, defaultSingle)
            == ExtractSingle(Tuples([first]), gi, c, defaultSingle)
  {
    assert ([first] + more)[0] == first;
    assert FirstValue(Tuples([first] + more), gi) == FirstValue(Tuples([first]), gi);
  }

  /** Single mode over a tuple: the selected group when it is non-empty,
      otherwise tuple element 0. */
  lemma ExtractSingleGroupChoice(m: seq<string>, gi: int, c: Cleaner, defaultSingle: string)
    requires gi >= 1
    ensures |m| >= gi && m[gi - 1] != "" ==>
              ExtractSingle(Tuples([m]), gi, c, defaultSingle) == ExtractSingle(Strings([m[gi - 1]]), gi, c, defaultSingle)
    ensures (|m| < gi || m[gi - 1] == "") ==>
              ExtractSingle(Tuples([m]), gi, c, defaultSingle)
              == ExtractSingle(Strings([if m != [] then m[0] else ""]), gi, c, defaultSingle)
  {
  }

  /** Single mode with the single-line cleaner: the stripped first value, or
      the default when it is blank. */
  lemma ExtractSingleLineValue(x: string, more: seq<string>, gi: int, defaultSingle: string)
    ensures ExtractSingle(Strings([x] + more), gi, SingleLineCleaner, defaultSingle)
            == if AllSpace(x) then defaultSingle else Strip(x)
  {
    assert ([x] + more)[0] == x;
    var fv := FirstValue(Strings([x] + more), gi);
    assert fv == Some(if x != "" then Some(x) else None);
    var r := ExtractSingle(Strings([x] + more), gi, SingleLineCleaner, defaultSingle);
    assert r == CleanOrDefault(SingleLineCleaner, fv.value, defaultSingle);
    StripEmptyIffAllSpace(x);
    if x == "" {
      assert r == defaultSingle;
    } else {
      var cl := CleanSingleLine(Some(x));
      assert r == if cl.Some? && cl.value != "" then cl.value else defaultSingle;
      if x == Sentinel {
        SentinelIsCleanBlock();
        StripTrimmed(x);
      } else {
        assert cl == if Strip(x) != "" then Some(Strip(x)) else None;
      }
    }
  }

  /** Single mode with the multi-line cleaner: the default when the first
      value is blank, and otherwise a clean block whose lines are the value's
      stripped non-blank lines, in order. */
  lemma ExtractMultiLineValue(x: string, more: seq<string>, gi: int, defaultSingle: string)
    ensures var r := ExtractSingle(Strings([x] + more), gi, MultiLineCleaner, defaultSingle);
            && (AllSpace(x) ==> r == defaultSingle)
            && (!AllSpace(x) ==> r != "" && IsCleanBlock(r) && Ink(r) == Ink(x)
                                 && SplitOn(r, {'\n'}) == NonBlankLines(SplitOn(x, {'\n'})))
  {
    assert ([x] + more)[0] == x;
    var fv := FirstValue(Strings([x] + more), gi);
    assert fv == Some(if x != "" then Some(x) else None);
    var r := ExtractSingle(Strings([x] + more), gi, MultiLineCleaner, defaultSingle);
    assert r == CleanOrDefault(MultiLineCleaner, fv.value, defaultSingle);
    if x == "" {
      assert r == defaultSingle;
    } else {
      var cl := CleanMultiLine(Some(x));
      assert r == if cl.Some? && cl.value != "" then cl.value else defaultSingle;
      if x == Sentinel {
        assert cl == Some(x);
        SentinelIsCleanBlock();
        NonBlankLinesOfClean(SplitOn(x, {'\n'}));
      } else {
        CleanMultiLineResult(x);
      }
    }
  }
}
