/**
 * Python string primitives that the extraction engine relies on: whitespace
 * as `str.isspace` and the regex class `\s` define it, `strip`, `split` on a
 * set of separator characters, `"\n".join`, `startswith`, `in` on strings,
 * `replace`, and the order-forgetting `list(set(...))` de-duplication.
 */
module Text {

  /** Python's whitespace: the characters for which `str.isspace()` holds,
      which is also what `\s` matches in a `str` pattern. */
  predicate IsSpace(c: char)
  {
    ('\t' <= c <= '\r') || ('\U{1C}' <= c <= ' ') || c == '\U{85}' || c == '\U{A0}'
    || c == '\U{1680}' || ('\U{2000}' <= c <= '\U{200A}') || c == '\U{2028}' || c == '\U{2029}'
    || c == '\U{202F}' || c == '\U{205F}' || c == '\U{3000}'
  }

  predicate AllSpace(s: string)
  {
    forall i :: 0 <= i < |s| ==> IsSpace(s[i])
  }

  /** Neither end of `s` is whitespace. */
  predicate Trimmed(s: string)
  {
    s == [] || (!IsSpace(s[0]) && !IsSpace(s[|s| - 1]))
  }

  function TrimLeft(s: string): string
  {
    if s != [] && IsSpace(s[0]) then TrimLeft(s[1..]) else s
  }

  function TrimRight(s: string): string
  {
    if s != [] && IsSpace(s[|s| - 1]) then TrimRight(s[..|s| - 1]) else s
  }

  lemma {:induction false} TrimLeftShape(s: string)
    ensures |TrimLeft(s)| <= |s| && TrimLeft(s) == s[|s| - |TrimLeft(s)|..]
    ensures AllSpace(s[..|s| - |TrimLeft(s)|])
    ensures TrimLeft(s) == [] || !IsSpace(TrimLeft(s)[0])
  {
    if s != [] && IsSpace(s[0]) {
      TrimLeftShape(s[1..]);
      var k := |s| - |TrimLeft(s)|;
      forall i | 0 <= i < k ensures IsSpace(s[i]) {
        if i > 0 { assert s[i] == s[1..][..k - 1][i - 1]; }
      }
    }
  }

  lemma {:induction false} TrimRightShape(s: string)
    ensures |TrimRight(s)| <= |s| && TrimRight(s) == s[..|TrimRight(s)|]
    ensures AllSpace(s[|TrimRight(s)|..])
    ensures TrimRight(s) == [] || !IsSpace(TrimRight(s)[|TrimRight(s)| - 1])
  {
    if s != [] && IsSpace(s[|s| - 1]) {
      var p := s[..|s| - 1];
      TrimRightShape(p);
      var k := |TrimRight(s)|;
      assert s[..k] == p[..k];
      forall i | k <= i < |s| ensures IsSpace(s[i]) {
        if i < |s| - 1 { assert s[i] == p[k..][i - k]; }
      }
    }
  }

  /** Python's `str.strip()` with no argument. */
  function Strip(s: string): string
  {
    TrimRight(TrimLeft(s))
  }

  /** How many whitespace characters `strip` removes on the left. */
  function Lead(s: string): nat
  {
    TrimLeftShape(s);
    |s| - |TrimLeft(s)|
  }

  /** `strip` keeps a slice of its argument and drops only whitespace around it. */
  lemma StripShape(s: string)
    ensures Lead(s) + |Strip(s)| <= |s| && Strip(s) == s[Lead(s)..Lead(s) + |Strip(s)|]
    ensures AllSpace(s[..Lead(s)]) && AllSpace(s[Lead(s) + |Strip(s)|..])
  {
    var l := TrimLeft(s);
    TrimLeftShape(s);
    TrimRightShape(l);
    var r := TrimRight(l);
    assert s[Lead(s) + |r|..] == l[|r|..];
  }

  /** Neither end of a stripped string is whitespace. */
  lemma StripIsTrimmed(s: string)
    ensures Trimmed(Strip(s))
  {
    var l := TrimLeft(s);
    TrimLeftShape(s);
    TrimRightShape(l);
  }

  lemma StripTrimmed(s: string)
    requires Trimmed(s)
    ensures Strip(s) == s
  {
  }

  lemma StripIdempotent(s: string)
    ensures Strip(Strip(s)) == Strip(s)
  {
    StripIsTrimmed(s);
    StripTrimmed(Strip(s));
  }

  lemma {:induction false} TrimLeftPast(a: string, y: string)
    requires AllSpace(a) && (y == [] || !IsSpace(y[0]))
    ensures TrimLeft(a + y) == y
  {
    if a != [] {
      assert (a + y)[1..] == a[1..] + y;
      assert AllSpace(a[1..]) by {
        forall i | 0 <= i < |a[1..]| ensures IsSpace(a[1..][i]) { assert a[1..][i] == a[i + 1]; }
      }
      TrimLeftPast(a[1..], y);
    }
  }

  lemma {:induction false} TrimRightPast(y: string, b: string)
    requires AllSpace(b) && (y == [] || !IsSpace(y[|y| - 1]))
    ensures TrimRight(y + b) == y
  {
    if b != [] {
      var b' := b[..|b| - 1];
      assert (y + b)[..|y + b| - 1] == y + b';
      assert AllSpace(b') by {
        forall i | 0 <= i < |b'| ensures IsSpace(b'[i]) { assert b'[i] == b[i]; }
      }
      TrimRightPast(y, b');
    } else {
      assert y + b == y;
    }
  }

  /** `strip` removes exactly the whitespace around a trimmed middle. */
  lemma StripOf(a: string, m: string, b: string)
    requires AllSpace(a) && AllSpace(b) && Trimmed(m)
    ensures Strip(a + m + b) == m
  {
    if m != [] {
      assert a + m + b == a + (m + b);
      TrimLeftPast(a, m + b);
      TrimRightPast(m, b);
    } else {
      var s := a + m + b;
      assert AllSpace(s) by {
        forall i | 0 <= i < |s| ensures IsSpace(s[i]) {
          if i < |a| { assert s[i] == a[i]; } else { assert s[i] == b[i - |a|]; }
        }
      }
      StripEmptyIffAllSpace(s);
    }
  }

  /** Whitespace added around a string does not change what `strip` keeps. */
  lemma StripPadded(w: string, x: string, w': string)
    requires AllSpace(w) && AllSpace(w')
    ensures Strip(w + x + w') == Strip(x)
  {
    StripShape(x);
    StripIsTrimmed(x);
    var i, m := Lead(x), Strip(x);
    var a, b := x[..i], x[i + |m|..];
    assert x == a + m + b;
    assert w + x + w' == (w + a) + m + (b + w');
    assert AllSpace(w + a) by {
      forall k | 0 <= k < |w + a| ensures IsSpace((w + a)[k]) {
        if k < |w| { assert (w + a)[k] == w[k]; } else { assert (w + a)[k] == a[k - |w|]; }
      }
    }
    assert AllSpace(b + w') by {
      forall k | 0 <= k < |b + w'| ensures IsSpace((b + w')[k]) {
        if k < |b| { assert (b + w')[k] == b[k]; } else { assert (b + w')[k] == w'[k - |b|]; }
      }
    }
    StripOf(w + a, m, b + w');
  }

  lemma StripEmptyIffAllSpace(s: string)
    ensures Strip(s) == [] <==> AllSpace(s)
  {
    StripShape(s);
    var i := Lead(s);
    if Strip(s) == [] {
      TrimLeftShape(s);
      TrimRightShape(TrimLeft(s));
      assert TrimLeft(s) == [];
      assert s[..i] == s;
    }
    if AllSpace(s) {
      AllSpaceTrimLeft(s);
    }
  }

  lemma {:induction false} AllSpaceTrimLeft(s: string)
    requires AllSpace(s)
    ensures TrimLeft(s) == []
  {
    if s != [] {
      AllSpaceTrimLeft(s[1..]);
    }
  }

  /** The non-whitespace characters of `s`, in order. */
  function Ink(s: string): string
  {
    if s == [] then [] else (if IsSpace(s[0]) then [] else [s[0]]) + Ink(s[1..])
  }

  lemma {:induction false} InkAppend(a: string, b: string)
    ensures Ink(a + b) == Ink(a) + Ink(b)
  {
    if a == [] {
      assert a + b == b;
    } else {
      var h := if IsSpace(a[0]) then [] else [a[0]];
      assert (a + b)[0] == a[0];
      assert (a + b)[1..] == a[1..] + b;
      assert Ink(a + b) == h + Ink(a[1..] + b);
      InkAppend(a[1..], b);
    }
  }

  lemma {:induction false} InkAllSpace(s: string)
    requires AllSpace(s)
    ensures Ink(s) == []
  {
    if s != [] {
      InkAllSpace(s[1..]);
    }
  }

  /** Stripping removes whitespace and nothing else. */
  lemma InkStrip(s: string)
    ensures Ink(Strip(s)) == Ink(s)
  {
    StripShape(s);
    var r := Strip(s);
    var i := Lead(s);
    var pre, post := s[..i], s[i + |r|..];
    assert s == pre + r + post;
    InkAppend(pre + r, post);
    InkAppend(pre, r);
    InkAllSpace(pre);
    InkAllSpace(post);
  }

  predicate NoneIn(s: string, seps: set<char>)
  {
    forall k :: 0 <= k < |s| ==> s[k] !in seps
  }

  lemma StripKeepsNoneIn(s: string, seps: set<char>)
    requires NoneIn(s, seps)
    ensures NoneIn(Strip(s), seps)
  {
    StripShape(s);
    var r, i := Strip(s), Lead(s);
    forall k | 0 <= k < |r| ensures r[k] !in seps {
      assert r[k] == s[i + k];
    }
  }

  /** Python's `s.split(c)` when `seps == {c}`, and `re.split('[...]', s)`
      for a one-character class: the pieces between separators, empty ones
      included, so there is always at least one piece. */
  function SplitOn(s: string, seps: set<char>): (r: seq<string>)
    ensures |r| >= 1
    ensures forall i :: 0 <= i < |r| ==> NoneIn(r[i], seps)
  {
    if s == [] then [[]]
    else
      var rest := SplitOn(s[1..], seps);
      if s[0] in seps then [[]] + rest
      else [[s[0]] + rest[0]] + rest[1..]
  }

  /** Python's `sep.join(parts)` for a one-character separator. */
  function Join(parts: seq<string>, sep: char): string
  {
    if |parts| == 0 then []
    else if |parts| == 1 then parts[0]
    else parts[0] + [sep] + Join(parts[1..], sep)
  }

  lemma {:induction false} JoinSplit(s: string, c: char)
    ensures Join(SplitOn(s, {c}), c) == s
  {
    if s != [] {
      var rest := SplitOn(s[1..], {c});
      JoinSplit(s[1..], c);
      if s[0] == c {
        assert SplitOn(s, {c}) == [[]] + rest;
        assert ([[]] + rest)[1..] == rest;
      } else {
        var r := [[s[0]] + rest[0]] + rest[1..];
        assert SplitOn(s, {c}) == r;
        if |rest| == 1 {
          assert Join(r, c) == [s[0]] + rest[0];
        } else {
          assert r[1..] == rest[1..];
          assert Join(rest, c) == rest[0] + [c] + Join(rest[1..], c);
        }
      }
    }
  }

  /** One step of `SplitOn`, for a string given by its first character. */
  lemma SplitCons(c: char, x: string, seps: set<char>)
    ensures SplitOn([c] + x, seps) ==
              if c in seps then [[]] + SplitOn(x, seps)
              else [[c] + SplitOn(x, seps)[0]] + SplitOn(x, seps)[1..]
  {
    assert ([c] + x)[1..] == x;
  }

  /** The shape of `SplitAppend`'s result, pushed past one more piece. */
  lemma JoinPiecesSep(r: seq<string>, q: seq<string>, s: seq<string>)
    requires |r| >= 1 && |q| >= 1
    requires s == r[..|r| - 1] + [r[|r| - 1] + q[0]] + q[1..]
    ensures var p := [[]] + r; [[]] + s == p[..|p| - 1] + [p[|p| - 1] + q[0]] + q[1..]
  {
    var p := [[]] + r;
    assert p[..|p| - 1] == [[]] + r[..|r| - 1];
  }

  /** The same, for a first piece that grows by one character. */
  lemma JoinPiecesChar(c: char, r: seq<string>, q: seq<string>, s: seq<string>)
    requires |r| >= 1 && |q| >= 1
    requires s == r[..|r| - 1] + [r[|r| - 1] + q[0]] + q[1..]
    ensures var p := [[c] + r[0]] + r[1..];
            [[c] + s[0]] + s[1..] == p[..|p| - 1] + [p[|p| - 1] + q[0]] + q[1..]
  {
    var p := [[c] + r[0]] + r[1..];
    if |r| == 1 {
      assert s[0] == r[0] + q[0] && s[1..] == q[1..];
      assert p[..|p| - 1] == [] && p[|p| - 1] == [c] + r[0];
      assert [c] + s[0] == p[|p| - 1] + q[0];
    } else {
      assert s[0] == r[0];
      assert s[1..] == r[1..|r| - 1] + [r[|r| - 1] + q[0]] + q[1..];
      assert p[..|p| - 1] == [[c] + r[0]] + r[1..|r| - 1];
    }
  }

  /** Splitting a concatenation: the last piece of `t` and the first piece
      of `w` run together. */
  lemma {:induction false} SplitAppend(t: string, w: string, seps: set<char>)
    ensures var p, q := SplitOn(t, seps), SplitOn(w, seps);
            SplitOn(t + w, seps) == p[..|p| - 1] + [p[|p| - 1] + q[0]] + q[1..]
  {
    var q := SplitOn(w, seps);
    if t == [] {
      assert t + w == w;
      assert SplitOn(t, seps) == [[]];
      assert [] + q[0] == q[0];
      assert q == [q[0]] + q[1..];
    } else {
      var c, t' := t[0], t[1..];
      assert t == [c] + t' && t + w == [c] + (t' + w);
      SplitAppend(t', w, seps);
      SplitCons(c, t', seps);
      SplitCons(c, t' + w, seps);
      if c in seps {
        JoinPiecesSep(SplitOn(t', seps), q, SplitOn(t' + w, seps));
      } else {
        JoinPiecesChar(c, SplitOn(t', seps), q, SplitOn(t' + w, seps));
      }
    }
  }

  /** The pieces of an all-whitespace string are all whitespace. */
  lemma {:induction false} SplitAllSpace(w: string, seps: set<char>)
    requires AllSpace(w)
    ensures forall i :: 0 <= i < |SplitOn(w, seps)| ==> AllSpace(SplitOn(w, seps)[i])
  {
    if w != [] {
      assert AllSpace(w[1..]) by {
        forall i | 0 <= i < |w[1..]| ensures IsSpace(w[1..][i]) { assert w[1..][i] == w[i + 1]; }
      }
      SplitAllSpace(w[1..], seps);
      var rest := SplitOn(w[1..], seps);
      if w[0] !in seps {
        var h := [w[0]] + rest[0];
        assert AllSpace(h) by {
          forall k | 0 <= k < |h| ensures IsSpace(h[k]) { if k > 0 { assert h[k] == rest[0][k - 1]; } }
        }
        assert SplitOn(w, seps) == [h] + rest[1..];
        forall i | 0 <= i < |SplitOn(w, seps)| ensures AllSpace(SplitOn(w, seps)[i]) {
          if i > 0 { assert SplitOn(w, seps)[i] == rest[i]; }
        }
      } else {
        assert SplitOn(w, seps) == [[]] + rest;
        forall i | 0 <= i < |SplitOn(w, seps)| ensures AllSpace(SplitOn(w, seps)[i]) {
          if i > 0 { assert SplitOn(w, seps)[i] == rest[i - 1]; }
        }
      }
    }
  }

  lemma {:induction false} SplitJoin(parts: seq<string>, c: char)
    requires |parts| >= 1
    requires forall i :: 0 <= i < |parts| ==> NoneIn(parts[i], {c})
    ensures SplitOn(Join(parts, c), {c}) == parts
    decreases |parts|, |parts[0]|
  {
    var p := parts[0];
    if p == [] {
      if |parts| > 1 {
        assert Join(parts, c) == [c] + Join(parts[1..], c);
        SplitJoin(parts[1..], c);
        assert ([c] + Join(parts[1..], c))[1..] == Join(parts[1..], c);
      }
    } else {
      var parts' := [p[1..]] + parts[1..];
      assert parts'[1..] == parts[1..];
      forall i | 0 <= i < |parts'| ensures NoneIn(parts'[i], {c}) {
        if i == 0 {
          assert forall k :: 0 <= k < |p[1..]| ==> p[1..][k] == p[k + 1];
        }
      }
      SplitJoin(parts', c);
      var j := Join(parts, c);
      if |parts| == 1 {
        assert j == p;
        assert j[1..] == Join(parts', c);
      } else {
        assert j == p + [c] + Join(parts[1..], c);
        assert Join(parts', c) == p[1..] + [c] + Join(parts[1..], c);
        assert j[1..] == Join(parts', c);
      }
      assert j[0] == p[0] && p[0] != c;
      assert p == [p[0]] + p[1..];
      assert parts == [[p[0]] + parts'[0]] + parts'[1..];
    }
  }

  /** The concatenation of the non-whitespace characters of every part. */
  function InkAll(parts: seq<string>): string
  {
    if parts == [] then [] else Ink(parts[0]) + InkAll(parts[1..])
  }

  lemma {:induction false} InkJoin(parts: seq<string>, sep: char)
    requires IsSpace(sep)
    ensures Ink(Join(parts, sep)) == InkAll(parts)
  {
    if |parts| == 1 {
      assert InkAll(parts) == Ink(parts[0]) + InkAll([]);
    } else if |parts| > 1 {
      InkJoin(parts[1..], sep);
      InkAppend(parts[0] + [sep], Join(parts[1..], sep));
      InkAppend(parts[0], [sep]);
      assert Ink([sep]) == [] + Ink([]);
    }
  }

  predicate StartsWith(s: string, prefix: string)
  {
    |prefix| <= |s| && s[..|prefix|] == prefix
  }

  predicate OccursAt(s: string, sub: string, i: int)
  {
    0 <= i && i + |sub| <= |s| && s[i..i + |sub|] == sub
  }

  /** Python's `sub in s`. */
  function Contains(s: string, sub: string): bool
  {
    StartsWith(s, sub) || (s != [] && Contains(s[1..], sub))
  }

  lemma {:induction false} ContainsOccurs(s: string, sub: string)
    ensures Contains(s, sub) <==> exists i :: OccursAt(s, sub, i)
  {
    if StartsWith(s, sub) {
      assert OccursAt(s, sub, 0);
    } else if s != [] {
      ContainsOccurs(s[1..], sub);
      if Contains(s[1..], sub) {
        var i :| OccursAt(s[1..], sub, i);
        assert s[1..][i..i + |sub|] == s[i + 1..i + 1 + |sub|];
        assert OccursAt(s, sub, i + 1);
      } else {
        forall i | OccursAt(s, sub, i) ensures false {
          assert i != 0;
          assert 1 <= i && i + |sub| <= |s|;
          var a, b := s[1..][i - 1..i - 1 + |sub|], s[i..i + |sub|];
          forall k | 0 <= k < |sub| ensures a[k] == b[k] {
            assert s[1..][i - 1 + k] == s[i + k];
          }
          assert a == b;
          assert OccursAt(s[1..], sub, i - 1);
        }
      }
    }
  }

  /** `sub` cannot occur where its first character does not. */
  lemma {:induction false} AbsentFirstChar(s: string, sub: string)
    requires sub != []
    requires forall i :: 0 <= i < |s| ==> s[i] != sub[0]
    ensures !Contains(s, sub)
  {
    if s != [] {
      assert !StartsWith(s, sub) by {
        if |sub| <= |s| { assert s[..|sub|][0] == s[0]; }
      }
      AbsentFirstChar(s[1..], sub);
    }
  }

  /** Python's `s.replace(target, replacement)`: every non-overlapping occurrence of
      `target`, scanned from the left, is replaced. */
  function ReplaceAll(s: string, target: string, replacement: string): string
    requires target != []
  {
    if |s| < |target| then s
    else if s[..|target|] == target then replacement + ReplaceAll(s[|target|..], target, replacement)
    else [s[0]] + ReplaceAll(s[1..], target, replacement)
  }

  lemma {:induction false} ReplaceAbsent(s: string, target: string, replacement: string)
    requires target != []
    requires !Contains(s, target)
    ensures ReplaceAll(s, target, replacement) == s
  {
    if |s| >= |target| {
      ReplaceAbsent(s[1..], target, replacement);
    }
  }

  /** A position that cannot start `target` (its first character differs, or
      the target does not fit) is copied; `target[..2]` is compared here so
      that a shared first character is also covered. */
  lemma ReplaceSkip(s: string, target: string, replacement: string)
    requires |target| >= 2 && |s| >= 2
    requires s[0] != target[0] || s[1] != target[1]
    ensures ReplaceAll(s, target, replacement) == [s[0]] + ReplaceAll(s[1..], target, replacement)
  {
    if |s| >= |target| {
      assert s[..|target|][..2] != target[..2];
    }
  }

  lemma ReplaceLeading(target: string, t: string, replacement: string)
    requires target != []
    ensures ReplaceAll(target + t, target, replacement) == replacement + ReplaceAll(t, target, replacement)
  {
    assert (target + t)[..|target|] == target;
    assert (target + t)[|target|..] == t;
  }

  function Elems<T>(xs: seq<T>): set<T>
  {
    set x | x in xs
  }

  predicate NoDups<T(==)>(xs: seq<T>)
  {
    forall i, j :: 0 <= i < j < |xs| ==> xs[i] != xs[j]
  }

  lemma ElemsEmpty<T>(xs: seq<T>)
    ensures Elems(xs) == {} <==> xs == []
  {
    if xs != [] {
      assert xs[0] in Elems(xs);
    }
  }

  /** `list(set(xs))`. Python leaves the order of the result unspecified;
      this one keeps first occurrences, and every contract about it speaks
      only of its elements and of the absence of duplicates. */
  function Dedup<T(==)>(xs: seq<T>): (r: seq<T>)
    ensures NoDups(r)
    ensures Elems(r) == Elems(xs)
    ensures |r| <= |xs|
  {
    if xs == [] then []
    else
      var rest := Dedup(xs[..|xs| - 1]);
      var x := xs[|xs| - 1];
      assert xs == xs[..|xs| - 1] + [x];
      assert Elems(xs) == Elems(xs[..|xs| - 1]) + {x};
      if x in rest then rest else rest + [x]
  }
}
