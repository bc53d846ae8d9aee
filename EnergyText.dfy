/**
 * `formatEnergyText`, the formatter of the persona's energy sentence:
 * every ".0%" becomes "%", then the text is split around each
 * "Hangul word, one white-space character, number, %" so that those pieces
 * can be drawn in heavy type.
 *
 * The pattern `[가-힣]+\s\d+(?:[\.]\d+)?%` is matched by a hand-written
 * matcher (MatchEnd) that is proved to agree with a declarative reading of
 * the pattern (IsMatch). The split follows the JavaScript rules for a
 * pattern with one capture group, and the emphasis test follows the rules
 * of `test` on a global pattern, whose `lastIndex` carries over from one
 * piece to the next.
 */
module EnergyText {
  import opened Wrappers
  import opened Strings

  /* ---------------- ".0%" -> "%" ---------------- */

  predicate StartsWithDotZeroPercent(s: string)
  {
    |s| >= 3 && s[0] == '.' && s[1] == '0' && s[2] == '%'
  }

  /** Some ".0%" occurs somewhere in `s`. */
  predicate HasDotZeroPercent(s: string)
  {
    exists i :: 0 <= i < |s| && StartsWithDotZeroPercent(s[i..])
  }

  /**
   * `replace(/\.0%/g, "%")`: occurrences are taken left to right without
   * overlap and each becomes "%".
   */
  function CleanPercents(s: string): (r: string)
    ensures |r| <= |s|
    decreases |s|
  {
    if |s| == 0 then []
    else if StartsWithDotZeroPercent(s) then "%" + CleanPercents(s[3..])
    else [s[0]] + CleanPercents(s[1..])
  }

  /** The clean-up changes the text exactly when the text holds a ".0%". */
  lemma {:induction false} CleanPercentsUnchangedIff(s: string)
    ensures CleanPercents(s) == s <==> !HasDotZeroPercent(s)
    decreases |s|
  {
    if HasDotZeroPercent(s) {
      CleanPercentsShrinks(s);
    } else {
      CleanPercentsKeeps(s);
    }
  }

  lemma {:induction false} CleanPercentsShrinks(s: string)
    requires HasDotZeroPercent(s)
    ensures |CleanPercents(s)| < |s|
    decreases |s|
  {
    var i :| 0 <= i < |s| && StartsWithDotZeroPercent(s[i..]);
    if !StartsWithDotZeroPercent(s) {
      assert i > 0;
      assert s[1..][i - 1..] == s[i..];
      CleanPercentsShrinks(s[1..]);
    }
  }

  lemma {:induction false} CleanPercentsKeeps(s: string)
    requires !HasDotZeroPercent(s)
    ensures CleanPercents(s) == s
    decreases |s|
  {
    if |s| > 0 {
      assert s[0..] == s;
      assert !StartsWithDotZeroPercent(s);
      assert !HasDotZeroPercent(s[1..]) by {
        forall i | 0 <= i < |s[1..]| ensures !StartsWithDotZeroPercent(s[1..][i..]) {
          assert s[1..][i..] == s[i + 1..];
        }
      }
      CleanPercentsKeeps(s[1..]);
    }
  }

  /** Two cases: "85.0%" loses its ".0", "85.5%" is kept. */
  lemma CleanPercentsExamples()
    ensures CleanPercents("85.0%") == "85%"
    ensures CleanPercents("85.5%") == "85.5%"
  {
    assert StartsWithDotZeroPercent("85.0%"[2..]);
    assert "85.0%"[2..][3..] == [];
    CleanPercentsKeeps("85.5%");
  }

  /* ---------------- the emphasis pattern ---------------- */

  /** `[가-힣]`: a precomposed Hangul syllable, U+AC00 to U+D7A3. */
  predicate IsHangul(c: char) { '가' <= c <= '힣' }

  /** `\d`: an ASCII digit. */
  predicate IsDigit(c: char) { '0' <= c <= '9' }

  /** `\s`: the JavaScript white-space and line-terminator characters. */
  predicate IsSpace(c: char)
  {
    c == '\t' || c == '\n' || c == '\U{000B}' || c == '\U{000C}' || c == '\r' || c == ' ' ||
    c == '\U{00A0}' || c == '\U{1680}' || ('\U{2000}' <= c <= '\U{200A}') ||
    c == '\U{2028}' || c == '\U{2029}' || c == '\U{202F}' || c == '\U{205F}' ||
    c == '\U{3000}' || c == '\U{FEFF}'
  }

  /** Every position in [a, b) is inside `t` and holds a Hangul syllable. */
  predicate HangulIn(t: string, a: int, b: int)
  {
    forall k :: a <= k < b ==> 0 <= k < |t| && IsHangul(t[k])
  }

  /** Every position in [a, b) is inside `t` and holds a digit. */
  predicate DigitsIn(t: string, a: int, b: int)
  {
    forall k :: a <= k < b ==> 0 <= k < |t| && IsDigit(t[k])
  }

  /**
   * The number-and-percent tail of a match, read off positions: the digits
   * of the whole part run from `i` to `d`; then either "%" ends the match
   * at `n`, or a point, at least one digit and "%" do.
   */
  predicate NumberTail(t: string, i: int, d: int, n: int)
  {
    && 0 <= i <= d < n <= |t|
    && DigitsIn(t, i, d)
    && t[n - 1] == '%'
    && (d == n - 1 || (t[d] == '.' && d + 1 < n - 1 && DigitsIn(t, d + 1, n - 1)))
  }

  /** From the white-space at `w` on: `\s\d+(?:[\.]\d+)?%`, with the whole part ending at `d`. */
  predicate AfterWord(t: string, w: int, d: int, n: int)
  {
    0 <= w && w + 1 < d && w < |t| && IsSpace(t[w]) && NumberTail(t, w + 1, d, n)
  }

  /**
   * `t[..n]` is one match of `[가-힣]+\s\d+(?:[\.]\d+)?%` whose word ends
   * at `w` and whose whole part ends at `d`.
   */
  predicate MatchShape(t: string, n: int, w: int, d: int)
  {
    0 < w && HangulIn(t, 0, w) && AfterWord(t, w, d, n)
  }

  /** The whole of `m` is one match of the pattern (the declarative reading). */
  ghost predicate IsMatch(m: string)
  {
    exists w, d :: MatchShape(m, |m|, w, d)
  }

  /*
   * The matcher: an automaton that reads `t` from its start, one state per
   * part of the pattern. Each `+` takes the longest run it can; giving any
   * of a run back would put a character of the run's class where the
   * pattern needs another class, so backtracking can never find a
   * different match, and none is modelled.
   */

  /** Inside the fraction digits (at least one read), at position `i`. */
  function InFraction(t: string, i: nat): (r: Option<nat>)
    requires i <= |t|
    ensures r.Some? ==> i < r.value <= |t|
    decreases |t| - i
  {
    if i == |t| then None
    else if IsDigit(t[i]) then InFraction(t, i + 1)
    else if t[i] == '%' then Some(i + 1)
    else None
  }

  /** Inside the whole part of the number (at least one digit read), at position `i`. */
  function InNumber(t: string, i: nat): (r: Option<nat>)
    requires i <= |t|
    ensures r.Some? ==> i < r.value <= |t|
    decreases |t| - i
  {
    if i == |t| then None
    else if IsDigit(t[i]) then InNumber(t, i + 1)
    else if t[i] == '%' then Some(i + 1)
    else if t[i] == '.' && i + 1 < |t| && IsDigit(t[i + 1]) then InFraction(t, i + 2)
    else None
  }

  /** Inside the word (at least one syllable read), at position `i`. */
  function InWord(t: string, i: nat): (r: Option<nat>)
    requires i <= |t|
    ensures r.Some? ==> i < r.value <= |t|
    decreases |t| - i
  {
    if i == |t| then None
    else if IsHangul(t[i]) then InWord(t, i + 1)
    else if IsSpace(t[i]) && i + 1 < |t| && IsDigit(t[i + 1]) then InNumber(t, i + 2)
    else None
  }

  /** The length of the match that starts at the beginning of `t`, if any. */
  function MatchEnd(t: string): (r: Option<nat>)
    ensures r.Some? ==> 0 < r.value <= |t|
  {
    if |t| > 0 && IsHangul(t[0]) then InWord(t, 1) else None
  }

  lemma {:induction false} InFractionSpec(t: string, i: nat, n: int)
    requires i <= |t|
    ensures InFraction(t, i) == Some(n) <==> (i < n <= |t| && DigitsIn(t, i, n - 1) && t[n - 1] == '%')
    decreases |t| - i
  {
    if i < |t| && IsDigit(t[i]) {
      InFractionSpec(t, i + 1, n);
    }
  }

  lemma {:induction false} InNumberSpec(t: string, i: nat, n: int)
    requires i <= |t|
    ensures InNumber(t, i) == Some(n) <==> exists d :: NumberTail(t, i, d, n)
    decreases |t| - i
  {
    if i == |t| {
    } else if IsDigit(t[i]) {
      InNumberSpec(t, i + 1, n);
      if InNumber(t, i) == Some(n) {
        var d :| NumberTail(t, i + 1, d, n);
        assert NumberTail(t, i, d, n);
      }
      if d :| NumberTail(t, i, d, n) {
        assert d != i;
        assert NumberTail(t, i + 1, d, n);
      }
    } else if t[i] == '%' {
      if InNumber(t, i) == Some(n) {
        assert NumberTail(t, i, i, n);
      }
    } else if t[i] == '.' && i + 1 < |t| && IsDigit(t[i + 1]) {
      InFractionSpec(t, i + 2, n);
      if InNumber(t, i) == Some(n) {
        assert NumberTail(t, i, i, n);
      }
      if d :| NumberTail(t, i, d, n) {
        assert d == i;
      }
    }
  }

  lemma {:induction false} InWordSpec(t: string, i: nat, n: int)
    requires 0 < i <= |t|
    ensures InWord(t, i) == Some(n) <==> exists w, d :: i <= w && HangulIn(t, i, w) && AfterWord(t, w, d, n)
    decreases |t| - i
  {
    if i == |t| {
    } else if IsHangul(t[i]) {
      InWordSpec(t, i + 1, n);
      if InWord(t, i) == Some(n) {
        var w, d :| i + 1 <= w && HangulIn(t, i + 1, w) && AfterWord(t, w, d, n);
        assert HangulIn(t, i, w);
      }
      if w, d :| i <= w && HangulIn(t, i, w) && AfterWord(t, w, d, n) {
        assert w != i;
        assert HangulIn(t, i + 1, w);
      }
    } else if IsSpace(t[i]) && i + 1 < |t| && IsDigit(t[i + 1]) {
      InNumberSpec(t, i + 2, n);
      if InWord(t, i) == Some(n) {
        var d :| NumberTail(t, i + 2, d, n);
        assert AfterWord(t, i, d, n);
      }
      if w, d :| i <= w && HangulIn(t, i, w) && AfterWord(t, w, d, n) {
        assert w == i;
        assert NumberTail(t, i + 2, d, n);
      }
    } else {
      forall w, d | i <= w ensures !(HangulIn(t, i, w) && AfterWord(t, w, d, n)) {
        if w > i {
          assert !IsHangul(t[i]);
        }
      }
    }
  }

  /** The shape of a match is decided by the first `n` characters alone. */
  lemma MatchShapePrefix(t: string, n: int, w: int, d: int)
    requires 0 <= n <= |t|
    ensures MatchShape(t, n, w, d) <==> MatchShape(t[..n], n, w, d)
  {
  }

  /**
   * The matcher agrees with the pattern: it reports length `n` exactly
   * when the first `n` characters of `t` form a match. In particular a
   * text has at most one match starting at its beginning.
   */
  lemma MatchEndIsMatch(t: string, n: nat)
    requires n <= |t|
    ensures MatchEnd(t) == Some(n) <==> IsMatch(t[..n])
  {
    if |t| > 0 && IsHangul(t[0]) {
      InWordSpec(t, 1, n);
      if MatchEnd(t) == Some(n) {
        var w, d :| 1 <= w && HangulIn(t, 1, w) && AfterWord(t, w, d, n);
        assert MatchShape(t, n, w, d);
        MatchShapePrefix(t, n, w, d);
        assert |t[..n]| == n;
      }
      if IsMatch(t[..n]) {
        var w, d :| MatchShape(t[..n], |t[..n]|, w, d);
        MatchShapePrefix(t, n, w, d);
        assert 1 <= w && HangulIn(t, 1, w) && AfterWord(t, w, d, n);
      }
    } else if IsMatch(t[..n]) {
      var w, d :| MatchShape(t[..n], |t[..n]|, w, d);
      MatchShapePrefix(t, n, w, d);
      assert false;
    }
  }

  /** A match found in a text is still the match once more text follows it. */
  lemma MatchEndExtends(u: string, v: string, n: nat)
    requires MatchEnd(u) == Some(n)
    ensures MatchEnd(u + v) == Some(n)
  {
    MatchEndIsMatch(u, n);
    assert (u + v)[..n] == u[..n];
    MatchEndIsMatch(u + v, n);
  }

  /** A match found in a text is also found in the match alone. */
  lemma MatchEndTruncates(t: string, n: nat)
    requires MatchEnd(t) == Some(n)
    ensures MatchEnd(t[..n]) == Some(n)
  {
    MatchEndIsMatch(t, n);
    assert t[..n][..n] == t[..n];
    MatchEndIsMatch(t[..n], n);
  }

  /* ---------------- split with a capture group ---------------- */

  /** No match of the pattern starts anywhere in `t`. */
  predicate NoMatch(t: string)
  {
    forall k :: 0 <= k < |t| ==> MatchEnd(t[k..]) == None
  }

  /**
   * The split loop: `p` is the end of the last match, `q` the position
   * being tried. A failed try moves on one character; a match pushes the
   * text before it and the captured match, and the scan resumes after it.
   */
  function SplitFrom(s: string, p: nat, q: nat): seq<string>
    requires p <= q <= |s|
    decreases |s| - q
  {
    if q == |s| then [s[p..]]
    else
      match MatchEnd(s[q..])
      case None => SplitFrom(s, p, q + 1)
      case Some(n) => [s[p..q], s[q..q + n]] + SplitFrom(s, q + n, q + n)
  }

  /** `text.split(regex)` with the pattern's one capture group. */
  function Split(s: string): seq<string>
  {
    SplitFrom(s, 0, 0)
  }

  /** One step of the split loop, stated once so that the proofs below need not unfold it. */
  lemma SplitFromStep(s: string, p: nat, q: nat)
    requires p <= q < |s|
    ensures MatchEnd(s[q..]).None? ==> SplitFrom(s, p, q) == SplitFrom(s, p, q + 1)
    ensures MatchEnd(s[q..]).Some? ==>
      SplitFrom(s, p, q) == [s[p..q], s[q..q + MatchEnd(s[q..]).value]]
        + SplitFrom(s, q + MatchEnd(s[q..]).value, q + MatchEnd(s[q..]).value)
  {
  }

  lemma SliceThree(s: string, p: nat, q: nat, r: nat)
    requires p <= q <= r <= |s|
    ensures s[p..q] + s[q..r] + s[r..] == s[p..]
  {
  }

  lemma {:induction false} SplitFromConcat(s: string, p: nat, q: nat)
    requires p <= q <= |s|
    ensures Concat(SplitFrom(s, p, q)) == s[p..]
    decreases |s| - q
  {
    if q < |s| {
      SplitFromStep(s, p, q);
      var m := MatchEnd(s[q..]);
      if m.None? {
        SplitFromConcat(s, p, q + 1);
      } else {
        var n := m.value;
        var rest := SplitFrom(s, q + n, q + n);
        SplitFromConcat(s, q + n, q + n);
        ConcatPair(s[p..q], s[q..q + n], rest);
        SliceThree(s, p, q, q + n);
      }
    } else {
      assert SplitFrom(s, p, q) == [s[p..]];
      assert [s[p..]][1..] == [];
    }
  }

  /** The pieces of a split, glued back together, give the text that was split. */
  lemma SplitConcat(s: string)
    ensures Concat(Split(s)) == s
  {
    SplitFromConcat(s, 0, 0);
  }

  /**
   * The shape of a split: an odd number of pieces; the pieces at even
   * positions hold no match at all, the pieces at odd positions are
   * exactly one match each.
   */
  predicate Alternates(parts: seq<string>)
  {
    && |parts| % 2 == 1
    && (forall i :: 0 <= i < |parts| && i % 2 == 0 ==> NoMatch(parts[i]))
    && (forall i :: 0 <= i < |parts| && i % 2 == 1 ==> MatchEnd(parts[i]) == Some(|parts[i]|))
  }

  lemma AlternatesCons(a: string, b: string, rest: seq<string>)
    requires NoMatch(a) && MatchEnd(b) == Some(|b|) && Alternates(rest)
    ensures Alternates([a, b] + rest)
  {
    var parts := [a, b] + rest;
    forall i | 2 <= i < |parts| ensures parts[i] == rest[i - 2] {}
  }

  /** Text in which no match starts holds no match in any piece of it that runs to its end or beyond. */
  lemma NoMatchBetween(s: string, p: nat, q: nat)
    requires p <= q <= |s|
    requires forall k :: p <= k < q ==> MatchEnd(s[k..]) == None
    ensures NoMatch(s[p..q])
  {
    forall k | 0 <= k < |s[p..q]| ensures MatchEnd(s[p..q][k..]) == None {
      var u, v := s[p..q][k..], s[q..];
      assert u + v == s[p + k..];
      if MatchEnd(u).Some? {
        MatchEndExtends(u, v, MatchEnd(u).value);
      }
    }
  }

  lemma {:induction false} SplitFromAlternates(s: string, p: nat, q: nat)
    requires p <= q <= |s|
    requires forall k :: p <= k < q ==> MatchEnd(s[k..]) == None
    ensures Alternates(SplitFrom(s, p, q))
    decreases |s| - q
  {
    if q == |s| {
      NoMatchBetween(s, p, q);
      assert s[p..q] == s[p..];
    } else {
      SplitFromStep(s, p, q);
      match MatchEnd(s[q..])
      case None => SplitFromAlternates(s, p, q + 1);
      case Some(n) =>
        NoMatchBetween(s, p, q);
        assert s[q..][..n] == s[q..q + n];
        MatchEndTruncates(s[q..], n);
        SplitFromAlternates(s, q + n, q + n);
        AlternatesCons(s[p..q], s[q..q + n], SplitFrom(s, q + n, q + n));
    }
  }

  lemma SplitAlternates(s: string)
    ensures Alternates(Split(s))
  {
    SplitFromAlternates(s, 0, 0);
  }

  /* ---------------- the stateful emphasis test ---------------- */

  /** The leftmost match starting at or after `from`, as (start, end). */
  function FirstMatchFrom(t: string, from: nat): (r: Option<(nat, nat)>)
    ensures r.Some? ==> from <= r.value.0 < r.value.1 <= |t|
    decreases |t| - from
  {
    if from >= |t| then None
    else
      match MatchEnd(t[from..])
      case Some(n) => Some((from, from + n))
      case None => FirstMatchFrom(t, from + 1)
  }

  /**
   * `regex.test(part)` on the global pattern: the search starts at
   * `lastIndex`; a hit moves `lastIndex` to the end of the match, a miss
   * (or a `lastIndex` past the end) resets it to 0.
   */
  function Test(part: string, lastIndex: nat): (bool, nat)
  {
    if lastIndex > |part| then (false, 0)
    else
      match FirstMatchFrom(part, lastIndex)
      case Some(m) => (true, m.1)
      case None => (false, 0)
  }

  /** The emphasis flag of each piece, with `lastIndex` threaded from piece to piece. */
  function EmphasisFlags(parts: seq<string>, lastIndex: nat): (r: seq<bool>)
    ensures |r| == |parts|
  {
    if parts == [] then []
    else
      var (hit, next) := Test(parts[0], lastIndex);
      [hit] + EmphasisFlags(parts[1..], next)
  }

  lemma {:induction false} NoMatchMisses(t: string, from: nat)
    requires NoMatch(t)
    ensures FirstMatchFrom(t, from) == None
    decreases |t| - from
  {
    if from < |t| {
      NoMatchMisses(t, from + 1);
    }
  }

  /** A piece without a match fails the test and resets `lastIndex`. */
  lemma TestMisses(t: string, lastIndex: nat)
    requires NoMatch(t)
    ensures Test(t, lastIndex) == (false, 0)
  {
    NoMatchMisses(t, lastIndex);
  }

  /** A piece that is one whole match passes the test from 0 and leaves `lastIndex` at its end. */
  lemma TestHits(t: string)
    requires MatchEnd(t) == Some(|t|)
    ensures Test(t, 0) == (true, |t|)
  {
    assert t[0..] == t;
  }

  lemma AlternatesTail(parts: seq<string>)
    requires Alternates(parts) && |parts| > 1
    ensures Alternates(parts[2..])
  {
    var rest := parts[2..];
    forall i | 0 <= i < |rest| ensures rest[i] == parts[i + 2] {}
  }

  lemma FlagsStep(parts: seq<string>, lastIndex: nat)
    requires parts != []
    ensures EmphasisFlags(parts, lastIndex) ==
      [Test(parts[0], lastIndex).0] + EmphasisFlags(parts[1..], Test(parts[0], lastIndex).1)
  {
  }

  /**
   * On the pieces of a split the carried-over `lastIndex` never matters:
   * the flags are exactly "odd position", which is where the matches are.
   */
  lemma {:induction false} FlagsAlternate(parts: seq<string>, lastIndex: nat)
    requires Alternates(parts)
    ensures forall i :: 0 <= i < |parts| ==> (EmphasisFlags(parts, lastIndex)[i] <==> i % 2 == 1)
    decreases |parts|
  {
    var a := parts[0];
    TestMisses(a, lastIndex);
    if |parts| > 1 {
      var b, rest := parts[1], parts[2..];
      TestHits(b);
      AlternatesTail(parts);
      FlagsAlternate(rest, |b|);
      FlagsStep(parts, lastIndex);
      FlagsStep(parts[1..], 0);
      assert parts[1..][0] == b && parts[1..][1..] == rest;
      var flags, tail := EmphasisFlags(parts, lastIndex), EmphasisFlags(rest, |b|);
      assert flags == [false] + ([true] + tail);
      forall i | 2 <= i < |parts| ensures flags[i] == tail[i - 2] {}
    } else {
      assert EmphasisFlags(parts, lastIndex) == [false];
    }
  }

  /* ---------------- the formatter ---------------- */

  /** A rendered piece of text, drawn heavy when `emphasised`. */
  datatype Span = Span(text: string, emphasised: bool)

  /** What the formatter returns: an empty string for an empty input, otherwise spans. */
  datatype Formatted = Blank | Spans(spans: seq<Span>)

  function SpanTexts(spans: seq<Span>): (r: seq<string>)
    ensures |r| == |spans|
    ensures forall i :: 0 <= i < |spans| ==> r[i] == spans[i].text
  {
    seq(|spans|, i requires 0 <= i < |spans| => spans[i].text)
  }

  /** `formatEnergyText(text)`. */
  function FormatEnergyText(text: string): Formatted
  {
    if text == "" then Blank
    else
      var parts := Split(CleanPercents(text));
      var flags := EmphasisFlags(parts, 0);
      Spans(seq(|parts|, i requires 0 <= i < |parts| => Span(parts[i], flags[i])))
  }

  /**
   * What the formatter promises: an empty text renders as nothing;
   * otherwise the spans spell out the cleaned text, in order, and a span is
   * heavy exactly when it is one match of the pattern, which happens at the
   * odd positions only.
   */
  lemma FormatEnergyTextSpec(text: string)
    ensures text == "" ==> FormatEnergyText(text) == Blank
    ensures text != "" ==> FormatEnergyText(text).Spans?
    ensures text != "" ==> Concat(SpanTexts(FormatEnergyText(text).spans)) == CleanPercents(text)
    ensures text != "" ==> |FormatEnergyText(text).spans| % 2 == 1
    ensures text != "" ==> forall i :: 0 <= i < |FormatEnergyText(text).spans| ==>
      (FormatEnergyText(text).spans[i].emphasised <==> IsMatch(FormatEnergyText(text).spans[i].text))
    ensures text != "" ==> forall i :: 0 <= i < |FormatEnergyText(text).spans| ==>
      (FormatEnergyText(text).spans[i].emphasised <==> i % 2 == 1)
  {
    if text != "" {
      var clean := CleanPercents(text);
      var parts := Split(clean);
      var spans := FormatEnergyText(text).spans;
      assert SpanTexts(spans) == parts;
      SplitConcat(clean);
      SplitAlternates(clean);
      FlagsAlternate(parts, 0);
      forall i | 0 <= i < |spans| ensures spans[i].emphasised <==> IsMatch(spans[i].text) {
        var part := parts[i];
        if i % 2 == 1 {
          assert part[..|part|] == part;
          MatchEndIsMatch(part, |part|);
        } else {
          assert part[..|part|] == part;
          if |part| > 0 {
            assert part[0..] == part;
          }
          assert MatchEnd(part) == None;
          MatchEndIsMatch(part, |part|);
        }
      }
    }
  }
}
