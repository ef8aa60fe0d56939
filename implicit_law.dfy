/**
 * `extract_implicit_kanoon_fast`: the two-stage citation extractor. The body
 * is cut into sentence-like pieces on the danda "।" and on newlines; each
 * piece is stripped, blank ones are skipped, and only a piece that contains
 * one of a fixed set of legal-instrument keywords is handed to the precise
 * (and costly) statute-citation grammar. The grammar itself is a parameter:
 * `precise(sentence)` is the list of `match.group(0)` of its `finditer`.
 */
module ImplicitLaw {
  import opened Optional
  import opened Text

  /** Act, constitution, code, regulation, rule, treaty, order, law,
      arrangement, and the abbreviation "अ.बं.". */
  const Keywords: seq<string> := ["ऐन", "संविधान", "संहिता", "नियमावली", "नियम", "महासन्धि", "आदेश", "कानून", "बन्दोबस्त", "अ.बं."]

  /** The character class of `re.split(r'[।\n]', ...)`. */
  const SentenceBreaks: set<char> := {'।', '\n'}

  /** `any(kw in sentence for kw in keywords)` */
  predicate HasKeyword(sentence: string)
  {
    exists k :: 0 <= k < |Keywords| && Contains(sentence, Keywords[k])
  }

  /** `[m.strip() for m in matches]` */
  function StripAll(matches: seq<string>): (r: seq<string>)
    ensures |r| == |matches|
  {
    if matches == [] then [] else [Strip(matches[0])] + StripAll(matches[1..])
  }

  lemma {:induction false} StripAllAt(matches: seq<string>)
    ensures forall i :: 0 <= i < |matches| ==> StripAll(matches)[i] == Strip(matches[i])
  {
    if matches != [] {
      StripAllAt(matches[1..]);
    }
  }

  /** Stripping one more match appends its stripped form. */
  lemma {:induction false} StripAllSnoc(matches: seq<string>, m: string)
    ensures StripAll(matches + [m]) == StripAll(matches) + [Strip(m)]
  {
    if matches != [] {
      assert (matches + [m])[1..] == matches[1..] + [m];
      StripAllSnoc(matches[1..], m);
    }
  }

  /** What one piece of the split body adds to `potential_citations`. */
  function PieceCitations(precise: string -> seq<string>, piece: string): seq<string>
  {
    var sentence := Strip(piece);
    if sentence != "" && HasKeyword(sentence) then StripAll(precise(sentence)) else []
  }

  /** `potential_citations` once the loop has seen `pieces`. */
  function Candidates(precise: string -> seq<string>, pieces: seq<string>): seq<string>
  {
    if pieces == [] then []
    else Candidates(precise, pieces[..|pieces| - 1]) + PieceCitations(precise, pieces[|pieces| - 1])
  }

  /** `x` is a stripped match of the precise grammar on the stripped,
      non-blank, keyword-bearing form of `piece`. */
  ghost predicate CitedIn(precise: string -> seq<string>, piece: string, x: string)
  {
    var sentence := Strip(piece);
    && sentence != ""
    && HasKeyword(sentence)
    && exists m :: m in precise(sentence) && x == Strip(m)
  }

  /** extract_implicit_kanoon_fast(detail_text); the result's order, left
      unspecified by `list(set(...))`, is not part of the contract. */
  method ExtractImplicitKanoon(precise: string -> seq<string>, detail: Option<string>) returns (citations: seq<string>)
    ensures detail.None? || detail.value == "" ==> citations == []
    ensures detail.Some? && detail.value != "" ==>
              NoDups(citations) && Elems(citations) == Elems(Candidates(precise, SplitOn(detail.value, SentenceBreaks)))
  {
    if detail.None? || detail.value == "" {
      return [];
    }
    var sentences := SplitOn(detail.value, SentenceBreaks);
    var potential: seq<string> := [];
    var i := 0;
    while i < |sentences|
      invariant 0 <= i <= |sentences|
      invariant potential == Candidates(precise, sentences[..i])
    {
      assert sentences[..i + 1][..i] == sentences[..i];
      var sentence := Strip(sentences[i]);
      if sentence != "" && HasKeyword(sentence) {
        var matches := precise(sentence);
        var j := 0;
        while j < |matches|
          invariant 0 <= j <= |matches|
          invariant potential == Candidates(precise, sentences[..i]) + StripAll(matches[..j])
        {
          assert matches[..j + 1] == matches[..j] + [matches[j]];
          StripAllSnoc(matches[..j], matches[j]);
          potential := potential + [Strip(matches[j])];
          j := j + 1;
        }
        assert matches[..j] == matches;
      }
      i := i + 1;
    }
    assert sentences[..i] == sentences;
    citations := Dedup(potential);
  }

  // ----- lemmas -----

  /** Exactly the stripped matches found in keyword-bearing pieces are candidates. */
  lemma {:induction false} CandidatesMembers(precise: string -> seq<string>, pieces: seq<string>, x: string)
    ensures x in Candidates(precise, pieces) <==> exists i :: 0 <= i < |pieces| && CitedIn(precise, pieces[i], x)
  {
    if pieces != [] {
      var init, last := pieces[..|pieces| - 1], pieces[|pieces| - 1];
      CandidatesMembers(precise, init, x);
      var here := PieceCitations(precise, last);
      assert x in here <==> CitedIn(precise, last, x) by {
        var sentence := Strip(last);
        if sentence != "" && HasKeyword(sentence) {
          var ms := precise(sentence);
          StripAllAt(ms);
          if x in here {
            var k :| 0 <= k < |here| && here[k] == x;
            assert ms[k] in ms;
          }
          if CitedIn(precise, last, x) {
            var m :| m in ms && x == Strip(m);
            var k :| 0 <= k < |ms| && ms[k] == m;
            assert here[k] == x;
          }
        }
      }
      if exists i :: 0 <= i < |init| && CitedIn(precise, init[i], x) {
        var i :| 0 <= i < |init| && CitedIn(precise, init[i], x);
        assert pieces[i] == init[i];
      }
      if exists i :: 0 <= i < |pieces| && CitedIn(precise, pieces[i], x) {
        var i :| 0 <= i < |pieces| && CitedIn(precise, pieces[i], x);
        if i < |pieces| - 1 {
          assert pieces[i] == init[i];
        }
      }
    }
  }

  /** Every citation is stripped, comes from a non-blank piece of the body
      split on "।" and "\n", and that piece holds one of the keywords. */
  lemma CitationOrigin(precise: string -> seq<string>, text: string, x: string)
    requires x in Candidates(precise, SplitOn(text, SentenceBreaks))
    ensures Trimmed(x)
    ensures exists i :: 0 <= i < |SplitOn(text, SentenceBreaks)| &&
              var sentence := Strip(SplitOn(text, SentenceBreaks)[i]);
              sentence != "" && HasKeyword(sentence) && NoneIn(sentence, SentenceBreaks)
              && exists m :: m in precise(sentence) && x == Strip(m)
  {
    var pieces := SplitOn(text, SentenceBreaks);
    CandidatesMembers(precise, pieces, x);
    var i :| 0 <= i < |pieces| && CitedIn(precise, pieces[i], x);
    var sentence := Strip(pieces[i]);
    var m :| m in precise(sentence) && x == Strip(m);
    StripIsTrimmed(m);
    StripKeepsNoneIn(pieces[i], SentenceBreaks);
  }

  /** The keyword prefilter is a hard gate: when no piece holds a keyword,
      nothing is extracted, whatever the precise grammar would match. */
  lemma KeywordGate(precise: string -> seq<string>, text: string)
    requires forall i :: 0 <= i < |SplitOn(text, SentenceBreaks)| ==> !HasKeyword(Strip(SplitOn(text, SentenceBreaks)[i]))
    ensures Candidates(precise, SplitOn(text, SentenceBreaks)) == []
  {
    var pieces := SplitOn(text, SentenceBreaks);
    var c := Candidates(precise, pieces);
    if c != [] {
      CandidatesMembers(precise, pieces, c[0]);
    }
  }
}
