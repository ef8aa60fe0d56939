/**
 * The decision number of a record. `unique_id_base_pattern` takes the
 * leading "निर्णय नं." ("decision no."), optional whitespace and a run of
 * Devanagari or Bengali digits from the title; the record's `uniqueId` is
 * that text with "निर्णय" shortened to "नि.".
 */
module UniqueIds {
  import opened Optional
  import opened Text

  /** The literal start of the pattern, "निर्णय नं.". */
  const DecisionNo: string := "निर्णय नं."

  /** The word replaced in the match, "निर्णय". */
  const Decision: string := "निर्णय"

  /** Its abbreviation, "नि.". */
  const DecisionAbbrev: string := "नि."

  /** The digit class `[०-९০-৯]`: Devanagari and Bengali digits. */
  predicate IsIdDigit(c: char)
  {
    ('०' <= c <= '९') || ('০' <= c <= '৯')
  }

  predicate AllIdDigits(s: string)
  {
    forall i :: 0 <= i < |s| ==> IsIdDigit(s[i])
  }

  /** The length of the run of digits at the start of `s`. */
  function DigitRun(s: string): (n: nat)
    ensures n <= |s|
  {
    if s != [] && IsIdDigit(s[0]) then 1 + DigitRun(s[1..]) else 0
  }

  /** `s` has the shape group 1 matches: "निर्णय नं.", whitespace up to
      `k`, and one or more digits from `k` to the end. */
  predicate IdShape(s: string, k: int)
  {
    && |DecisionNo| <= k < |s|
    && StartsWith(s, DecisionNo)
    && AllSpace(s[|DecisionNo|..k])
    && AllIdDigits(s[k..])
  }

  /** `unique_id_base_pattern.search(title).group(1)`, None when there is no
      match. The pattern is anchored by `^` without MULTILINE, so it can only
      match at the start; `\s*` and the digit run are both greedy, and since
      no whitespace is a digit, backing off `\s*` never helps. */
  function UniqueIdMatch(title: string): Option<string>
  {
    if !StartsWith(title, DecisionNo) then None
    else
      var rest := title[|DecisionNo|..];
      var w := Lead(rest);
      var d := DigitRun(rest[w..]);
      if d == 0 then None else Some(title[..|DecisionNo| + w + d])
  }

  /** `match.group(1).replace("निर्णय", "नि.")` */
  function UniqueId(g: string): string
  {
    ReplaceAll(g, Decision, DecisionAbbrev)
  }

  // ----- lemmas -----

  lemma {:induction false} DigitRunShape(s: string)
    ensures AllIdDigits(s[..DigitRun(s)])
    ensures DigitRun(s) == |s| || !IsIdDigit(s[DigitRun(s)])
  {
    if s != [] && IsIdDigit(s[0]) {
      DigitRunShape(s[1..]);
      var n := DigitRun(s);
      forall i | 0 <= i < n ensures IsIdDigit(s[i]) {
        if i > 0 { assert s[i] == s[1..][..n - 1][i - 1]; }
      }
    }
  }

  /** A run of digits followed by something else is counted exactly. */
  lemma {:induction false} DigitRunOf(s: string, n: nat)
    requires n <= |s| && AllIdDigits(s[..n])
    ensures DigitRun(s) >= n
  {
    if n > 0 {
      assert s[0] == s[..n][0];
      assert s[1..][..n - 1] == s[..n][1..];
      DigitRunOf(s[1..], n - 1);
    }
  }

  /** No whitespace is a digit. */
  lemma SpaceIsNoDigit(c: char)
    requires IsSpace(c)
    ensures !IsIdDigit(c)
  {
  }

  /** What the pattern takes is a prefix of the title of the shape of
      group 1, and it takes the whole digit run. */
  lemma UniqueIdMatchSound(title: string)
    requires UniqueIdMatch(title).Some?
    ensures var g := UniqueIdMatch(title).value;
            && StartsWith(title, g)
            && (exists k :: IdShape(g, k))
            && (|g| == |title| || !IsIdDigit(title[|g|]))
  {
    var n := |DecisionNo|;
    var rest := title[n..];
    var w := Lead(rest);
    TrimLeftShape(rest);
    var tail := rest[w..];
    var d := DigitRun(tail);
    DigitRunShape(tail);
    var g := title[..n + w + d];
    assert g[..n] == DecisionNo;
    assert g[n..n + w] == rest[..w];
    assert g[n + w..] == tail[..d];
    assert IdShape(g, n + w);
    if n + w + d < |title| {
      assert title[n + w + d] == tail[d];
    }
  }

  /** Conversely, a title that starts with text of the shape of group 1 is
      matched, and the match covers at least that text. */
  lemma UniqueIdMatchComplete(title: string, m: nat, k: int)
    requires m <= |title| && IdShape(title[..m], k)
    ensures UniqueIdMatch(title).Some? && |UniqueIdMatch(title).value| >= m
  {
    var n := |DecisionNo|;
    var s := title[..m];
    assert title[..n] == s[..n];
    var rest := title[n..];
    TrimLeftShape(rest);
    var w := Lead(rest);
    assert s[k] == title[k] == rest[k - n];
    assert IsIdDigit(rest[k - n]);
    assert w == k - n by {
      assert rest[..k - n] == s[n..k];
      if w > k - n {
        assert rest[..w][k - n] == rest[k - n];
        SpaceIsNoDigit(rest[k - n]);
      }
    }
    var tail := rest[w..];
    assert tail[..m - k] == s[k..];
    DigitRunOf(tail, m - k);
  }

  /** Past "निर्णय नं" nothing in a match is "न", the first letter of "निर्णय":
      the rest is ".", whitespace and digits. */
  lemma NoDecisionAfterPrefix(g: string, k: int)
    requires IdShape(g, k)
    ensures forall i :: 8 <= i < |g| ==> g[i] != Decision[0]
  {
    forall i | 8 <= i < |g| ensures g[i] != Decision[0] {
      if i < |DecisionNo| {
        assert g[i] == g[..|DecisionNo|][i] == DecisionNo[i];
      } else if i < k {
        assert g[i] == g[|DecisionNo|..k][i - |DecisionNo|];
      } else {
        assert g[i] == g[k..][i - k];
      }
    }
  }

  /** The rewrite shortens only the leading "निर्णय". */
  lemma UniqueIdShape(g: string, k: int)
    requires IdShape(g, k)
    ensures UniqueId(g) == DecisionAbbrev + g[|Decision|..]
  {
    // Only the lemmas about ReplaceAll are needed, not its definition.
    hide ReplaceAll;
    var t := g[|Decision|..];
    assert g == Decision + t;
    ReplaceLeading(Decision, t, DecisionAbbrev);
    assert g[..|DecisionNo|] == DecisionNo;
    assert t[..4] == g[..|DecisionNo|][6..];
    var u := t[2..];
    NoDecisionAfterPrefix(g, k);
    forall i | 0 <= i < |u| ensures u[i] != Decision[0] {
      assert u[i] == g[i + 8];
    }
    AbsentFirstChar(u, Decision);
    ReplaceAbsent(u, Decision, DecisionAbbrev);
    ReplaceSkip(t, Decision, DecisionAbbrev);
    assert t[1..][1..] == u;
    ReplaceSkip(t[1..], Decision, DecisionAbbrev);
  }

  /** A matched title gives "नि." followed by the rest of the match, which
      reads "नि. नं." and the number: never blank, never "NA". */
  lemma UniqueIdRewrite(g: string, k: int)
    requires IdShape(g, k)
    ensures UniqueId(g) == DecisionAbbrev + g[|Decision|..]
    ensures StartsWith(UniqueId(g), "नि. नं.")
    ensures !AllSpace(UniqueId(g)) && UniqueId(g) != "NA"
  {
    UniqueIdShape(g, k);
    var r := UniqueId(g);
    assert g[..|DecisionNo|] == DecisionNo;
    assert r[..7] == DecisionAbbrev + g[6..10];
    assert !IsSpace(r[0]);
    assert r != "NA" by { assert r[0] != 'N'; }
  }
}
