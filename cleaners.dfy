/**
 * The two text cleaners of process_faisalas.py: `clean_singleline_text`
 * (strip the whole value) and `clean_multiline_text` (strip every line, drop
 * blank lines, rejoin with "\n"). Both hand back their input untouched when
 * it is falsy (None or "") or is the "NA" sentinel, and return None when
 * cleaning leaves nothing.
 */
module Cleaners {
  import opened Optional
  import opened Text

  /** DEFAULT_STRING, the sentinel of an unresolved text field. */
  const Sentinel: string := "NA"

  /** Inputs both cleaners pass through unchanged: `not text_input or text_input == DEFAULT_STRING`. */
  predicate PassThrough(input: Option<string>)
  {
    input.None? || input.value == "" || input.value == Sentinel
  }

  /** clean_singleline_text */
  function CleanSingleLine(input: Option<string>): Option<string>
  {
    if PassThrough(input) then input
    else
      var cleaned := Strip(input.value);
      if cleaned != "" then Some(cleaned) else None
  }

  /** `[line.strip() for line in lines if line.strip()]` */
  function NonBlankLines(lines: seq<string>): seq<string>
  {
    if lines == [] then []
    else
      var t := Strip(lines[0]);
      (if t != "" then [t] else []) + NonBlankLines(lines[1..])
  }

  /** clean_multiline_text */
  function CleanMultiLine(input: Option<string>): Option<string>
  {
    if PassThrough(input) then input
    else
      var cleaned := Join(NonBlankLines(SplitOn(Strip(input.value), {'\n'})), '\n');
      if cleaned != "" then Some(cleaned) else None
  }

  /** A cleaned multi-line block: trimmed, and every line of it non-empty and trimmed. */
  predicate IsCleanBlock(v: string)
  {
    && Trimmed(v)
    && forall i :: 0 <= i < |SplitOn(v, {'\n'})| ==> SplitOn(v, {'\n'})[i] != "" && Trimmed(SplitOn(v, {'\n'})[i])
  }

  // ----- lemmas -----

  lemma SentinelIsCleanBlock()
    ensures Trimmed(Sentinel) && !AllSpace(Sentinel) && IsCleanBlock(Sentinel)
  {
    var a := Sentinel[1..];
    assert a == ['A'] && a[1..] == [];
    assert SplitOn([], {'\n'}) == [[]];
    var rest := SplitOn(a, {'\n'});
    assert rest == [['A'] + []] + [];
    assert rest[0] == a && rest[1..] == [];
    assert SplitOn(Sentinel, {'\n'}) == [[Sentinel[0]] + rest[0]] + rest[1..];
    assert [Sentinel[0]] + a == Sentinel;
    assert !IsSpace(Sentinel[0]);
  }

  lemma CleanersKeepPassThrough(input: Option<string>)
    requires PassThrough(input)
    ensures CleanSingleLine(input) == input && CleanMultiLine(input) == input
  {
  }

  /** The single-line cleaner keeps the input without its leading and
      trailing whitespace, and gives None when nothing else is left. */
  lemma CleanSingleLineResult(s: string)
    requires !PassThrough(Some(s))
    ensures CleanSingleLine(Some(s)).None? <==> AllSpace(s)
    ensures CleanSingleLine(Some(s)).Some? ==>
              var v := CleanSingleLine(Some(s)).value; v != "" && Trimmed(v) && Ink(v) == Ink(s)
    ensures CleanSingleLine(Some(s)).Some? ==>
              var v, i := CleanSingleLine(Some(s)).value, Lead(s);
              && i + |v| <= |s| && v == s[i..i + |v|]
              && AllSpace(s[..i]) && AllSpace(s[i + |v|..])
  {
    StripShape(s);
    StripEmptyIffAllSpace(s);
    StripIsTrimmed(s);
    InkStrip(s);
  }

  lemma CleanSingleLineIdempotent(input: Option<string>)
    ensures CleanSingleLine(CleanSingleLine(input)) == CleanSingleLine(input)
  {
    if !PassThrough(input) {
      StripIdempotent(input.value);
    }
  }

  lemma {:induction false} InkNonBlankLines(lines: seq<string>)
    ensures InkAll(NonBlankLines(lines)) == InkAll(lines)
  {
    if lines != [] {
      var t := Strip(lines[0]);
      InkNonBlankLines(lines[1..]);
      InkStrip(lines[0]);
      var rest := NonBlankLines(lines[1..]);
      if t != "" {
        assert [t] + rest == [t] + rest;
        assert ([t] + rest)[1..] == rest;
      } else {
        assert Ink(t) == [];
        assert [] + rest == rest;
      }
    }
  }

  /** Every kept line is non-empty and stripped. */
  lemma {:induction false} NonBlankLinesAreClean(lines: seq<string>)
    ensures forall i :: 0 <= i < |NonBlankLines(lines)| ==>
              NonBlankLines(lines)[i] != "" && Trimmed(NonBlankLines(lines)[i])
  {
    if lines != [] {
      NonBlankLinesAreClean(lines[1..]);
      StripIsTrimmed(lines[0]);
    }
  }

  lemma {:induction false} NonBlankLinesKeepNoneIn(lines: seq<string>, seps: set<char>)
    requires forall i :: 0 <= i < |lines| ==> NoneIn(lines[i], seps)
    ensures forall i :: 0 <= i < |NonBlankLines(lines)| ==> NoneIn(NonBlankLines(lines)[i], seps)
  {
    if lines != [] {
      NonBlankLinesKeepNoneIn(lines[1..], seps);
      StripKeepsNoneIn(lines[0], seps);
    }
  }

  lemma {:induction false} NonBlankLinesOfClean(lines: seq<string>)
    requires forall i :: 0 <= i < |lines| ==> lines[i] != "" && Trimmed(lines[i])
    ensures NonBlankLines(lines) == lines
  {
    if lines != [] {
      StripTrimmed(lines[0]);
      NonBlankLinesOfClean(lines[1..]);
    }
  }

  lemma {:induction false} NonBlankLinesAppend(a: seq<string>, b: seq<string>)
    ensures NonBlankLines(a + b) == NonBlankLines(a) + NonBlankLines(b)
  {
    if a == [] {
      assert a + b == b;
    } else {
      assert (a + b)[0] == a[0] && (a + b)[1..] == a[1..] + b;
      NonBlankLinesAppend(a[1..], b);
    }
  }

  lemma {:induction false} NonBlankLinesOfBlank(lines: seq<string>)
    requires forall i :: 0 <= i < |lines| ==> AllSpace(lines[i])
    ensures NonBlankLines(lines) == []
  {
    if lines != [] {
      StripEmptyIffAllSpace(lines[0]);
      NonBlankLinesOfBlank(lines[1..]);
    }
  }

  lemma NonBlankLinesOne(y: string, z: string)
    requires Strip(y) == Strip(z)
    ensures NonBlankLines([y]) == NonBlankLines([z])
  {
    assert [y][1..] == [] && [z][1..] == [];
  }

  /** Whitespace after the text adds only blank lines, or blanks at the end of the last one. */
  lemma NonBlankLinesPadRight(x: string, w: string)
    requires AllSpace(w)
    ensures NonBlankLines(SplitOn(x + w, {'\n'})) == NonBlankLines(SplitOn(x, {'\n'}))
  {
    hide SplitOn, Strip, NonBlankLines, NoneIn;
    var p, q := SplitOn(x, {'\n'}), SplitOn(w, {'\n'});
    var n := |p|;
    SplitAppend(x, w, {'\n'});
    SplitAllSpace(w, {'\n'});
    NonBlankLinesAppend(p[..n - 1] + [p[n - 1] + q[0]], q[1..]);
    NonBlankLinesAppend(p[..n - 1], [p[n - 1] + q[0]]);
    NonBlankLinesOfBlank(q[1..]);
    StripPadded([], p[n - 1], q[0]);
    assert [] + p[n - 1] + q[0] == p[n - 1] + q[0];
    NonBlankLinesOne(p[n - 1] + q[0], p[n - 1]);
    assert p == p[..n - 1] + [p[n - 1]];
    NonBlankLinesAppend(p[..n - 1], [p[n - 1]]);
  }

  /** Whitespace before the text adds only blank lines, or blanks at the start of the first one. */
  lemma NonBlankLinesPadLeft(w: string, x: string)
    requires AllSpace(w)
    ensures NonBlankLines(SplitOn(w + x, {'\n'})) == NonBlankLines(SplitOn(x, {'\n'}))
  {
    hide SplitOn, Strip, NonBlankLines, NoneIn;
    var p, q := SplitOn(w, {'\n'}), SplitOn(x, {'\n'});
    var n := |p|;
    SplitAppend(w, x, {'\n'});
    SplitAllSpace(w, {'\n'});
    NonBlankLinesAppend(p[..n - 1] + [p[n - 1] + q[0]], q[1..]);
    NonBlankLinesAppend(p[..n - 1], [p[n - 1] + q[0]]);
    NonBlankLinesOfBlank(p[..n - 1]);
    StripPadded(p[n - 1], q[0], []);
    assert p[n - 1] + q[0] + [] == p[n - 1] + q[0];
    NonBlankLinesOne(p[n - 1] + q[0], q[0]);
    assert q == [q[0]] + q[1..];
    NonBlankLinesAppend([q[0]], q[1..]);
  }

  /** Stripping the whole text first does not change its stripped non-blank lines. */
  lemma NonBlankLinesOfStrip(s: string)
    ensures NonBlankLines(SplitOn(Strip(s), {'\n'})) == NonBlankLines(SplitOn(s, {'\n'}))
  {
    StripShape(s);
    var i, m := Lead(s), Strip(s);
    var a, b := s[..i], s[i + |m|..];
    assert s == (a + m) + b;
    NonBlankLinesPadRight(a + m, b);
    NonBlankLinesPadLeft(a, m);
  }

  lemma {:induction false} JoinTrimmed(parts: seq<string>, sep: char)
    requires forall i :: 0 <= i < |parts| ==> parts[i] != "" && Trimmed(parts[i])
    ensures Join(parts, sep) == "" <==> parts == []
    ensures Trimmed(Join(parts, sep))
    ensures parts != [] ==> Join(parts, sep)[0] == parts[0][0]
  {
    if |parts| > 1 {
      JoinTrimmed(parts[1..], sep);
      var j := Join(parts[1..], sep);
      assert Join(parts, sep) == parts[0] + [sep] + j;
      assert Join(parts, sep)[|Join(parts, sep)| - 1] == j[|j| - 1];
    }
  }

  lemma TrimmedInk(v: string)
    requires Trimmed(v)
    ensures v == "" <==> Ink(v) == []
  {
    if v != "" {
      assert Ink(v) == [v[0]] + Ink(v[1..]);
    }
  }

  /** What a cleaned multi-line block looks like: its lines are the input's
      stripped non-blank lines, in order, so cleaning removes only whitespace. */
  lemma CleanMultiLineResult(s: string)
    requires !PassThrough(Some(s))
    ensures CleanMultiLine(Some(s)).None? <==> AllSpace(s)
    ensures CleanMultiLine(Some(s)).Some? ==>
              var v := CleanMultiLine(Some(s)).value;
              v != "" && IsCleanBlock(v) && Ink(v) == Ink(s)
    ensures CleanMultiLine(Some(s)).Some? ==>
              SplitOn(CleanMultiLine(Some(s)).value, {'\n'}) == NonBlankLines(SplitOn(s, {'\n'}))
  {
    var pieces := SplitOn(Strip(s), {'\n'});
    var lines := NonBlankLines(pieces);
    var v := Join(lines, '\n');
    NonBlankLinesAreClean(pieces);
    JoinTrimmed(lines, '\n');
    InkJoin(lines, '\n');
    InkNonBlankLines(pieces);
    InkJoin(pieces, '\n');
    JoinSplit(Strip(s), '\n');
    InkStrip(s);
    assert Ink(v) == Ink(s);
    TrimmedInk(v);
    InkEmptyIffAllSpace(s);
    if v != "" {
      NonBlankLinesKeepNoneIn(pieces, {'\n'});
      SplitJoin(lines, '\n');
      NonBlankLinesOfStrip(s);
    }
  }

  lemma {:induction false} InkEmptyIffAllSpace(s: string)
    ensures Ink(s) == [] <==> AllSpace(s)
  {
    if s != [] {
      InkEmptyIffAllSpace(s[1..]);
      assert AllSpace(s) <==> IsSpace(s[0]) && AllSpace(s[1..]) by {
        if IsSpace(s[0]) && AllSpace(s[1..]) {
          forall k | 0 <= k < |s| ensures IsSpace(s[k]) {
            if k > 0 { assert s[k] == s[1..][k - 1]; }
          }
        }
      }
    }
  }

  lemma CleanMultiLineIdempotent(input: Option<string>)
    ensures CleanMultiLine(CleanMultiLine(input)) == CleanMultiLine(input)
  {
    if !PassThrough(input) && CleanMultiLine(input).Some? {
      var v := CleanMultiLine(input).value;
      CleanMultiLineResult(input.value);
      if v != Sentinel {
        var lines := SplitOn(v, {'\n'});
        StripTrimmed(v);
        NonBlankLinesOfClean(lines);
        JoinSplit(v, '\n');
      }
    }
  }

  /** The two cleaners agree on which inputs clean away to nothing. */
  lemma CleanersAgreeOnBlank(input: Option<string>)
    ensures CleanMultiLine(input).None? <==> CleanSingleLine(input).None?
  {
    if !PassThrough(input) {
      CleanMultiLineResult(input.value);
      CleanSingleLineResult(input.value);
    }
  }
}
