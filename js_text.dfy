/**
 * The JavaScript string operations the portal's core relies on, stated on
 * `string` (a sequence of Unicode code points): `trim`, `includes`,
 * `split('---')`, `length` (counted in UTF-16 code units), `toLowerCase`
 * (ASCII letters only), the decimal rendering of a non-negative integer, and
 * the capture of a regular expression of the form /Label:\s*(.+)/.
 */
module JsText {

  import opened Types

  /** ECMAScript line terminators: LF, CR, LINE SEPARATOR, PARAGRAPH SEPARATOR. */
  predicate IsLineTerminator(c: char)
  {
    c == '\n' || c == '\r' || c == '\U{2028}' || c == '\U{2029}'
  }

  /** ECMAScript WhiteSpace plus LineTerminator: what `\s` matches and what `trim` strips. */
  predicate IsSpace(c: char)
  {
    || c == '\t' || c == '\U{B}' || c == '\U{C}' || c == ' ' || c == '\U{A0}' || c == '\U{FEFF}'
    || c == '\U{1680}' || ('\U{2000}' <= c <= '\U{200A}') || c == '\U{202F}' || c == '\U{205F}'
    || c == '\U{3000}' || IsLineTerminator(c)
  }

  predicate AllSpace(s: string)
  {
    forall i :: 0 <= i < |s| ==> IsSpace(s[i])
  }

  /** Index just past the last non-whitespace position in `s[lo..e]`, or `lo` when there is none. */
  function SkipSpacesBack(s: string, lo: nat, e: nat): (b: nat)
    requires lo <= e <= |s|
    ensures lo <= b <= e
    ensures forall i :: b <= i < e ==> IsSpace(s[i])
    ensures b > lo ==> !IsSpace(s[b - 1])
    decreases e
  {
    if e > lo && IsSpace(s[e - 1]) then SkipSpacesBack(s, lo, e - 1) else e
  }

  /**
   * `s.trim()`: the infix of `s` left once the leading and the trailing runs
   * of whitespace are removed.
   */
  function Trim(s: string): (r: string)
    ensures var a := SkipSpaces(s, 0); var b := SkipSpacesBack(s, a, |s|);
      && a <= b <= |s| && r == s[a..b]
      && (forall i :: 0 <= i < a ==> IsSpace(s[i]))
      && (forall i :: b <= i < |s| ==> IsSpace(s[i]))
    ensures r == [] || (!IsSpace(r[0]) && !IsSpace(r[|r| - 1]))
    ensures r == [] <==> AllSpace(s)
  {
    var a := SkipSpaces(s, 0);
    var b := SkipSpacesBack(s, a, |s|);
    TrimmedInfix(s, a, b);
    s[a..b]
  }

  /**
   * Between a leading whitespace run ending at the first non-space `a` and a
   * trailing run starting just after the last non-space, `s[a..b]` starts and
   * ends with a non-space and is empty exactly when `s` is all whitespace.
   */
  lemma TrimmedInfix(s: string, a: nat, b: nat)
    requires a <= b <= |s|
    requires forall i :: 0 <= i < a ==> IsSpace(s[i])
    requires a < |s| ==> !IsSpace(s[a])
    requires forall i :: b <= i < |s| ==> IsSpace(s[i])
    requires b > a ==> !IsSpace(s[b - 1])
    ensures var r := s[a..b]; r == [] || (!IsSpace(r[0]) && !IsSpace(r[|r| - 1]))
    ensures s[a..b] == [] <==> AllSpace(s)
  {
    if a == b {
      assert forall i :: 0 <= i < |s| ==> IsSpace(s[i]);
    } else {
      assert !IsSpace(s[a]);
    }
  }

  /** Number of UTF-16 code units of one code point: 2 above the Basic Multilingual Plane. */
  function CodeUnits(c: char): nat
  {
    if c as int > 0xFFFF then 2 else 1
  }

  /** `s.length`, which JavaScript counts in UTF-16 code units. */
  function Utf16Length(s: string): (n: nat)
    ensures |s| <= n <= 2 * |s|
  {
    if s == [] then 0 else CodeUnits(s[0]) + Utf16Length(s[1..])
  }

  predicate StartsWith(s: string, prefix: string)
  {
    |prefix| <= |s| && s[..|prefix|] == prefix
  }

  /** `s.includes(sub)`, by scanning the start positions of `s` from the left. */
  predicate Includes(s: string, sub: string)
  {
    StartsWith(s, sub) || (s != [] && Includes(s[1..], sub))
  }

  /** The scan agrees with the definition "`sub` occurs at some position of `s`". */
  lemma {:induction false} IncludesIffOccurs(s: string, sub: string)
    ensures Includes(s, sub) <==> exists i :: 0 <= i <= |s| && StartsWith(s[i..], sub)
  {
    if StartsWith(s, sub) {
      assert StartsWith(s[0..], sub);
    } else if s == [] {
      forall i | 0 <= i <= |s| ensures !StartsWith(s[i..], sub) {
        assert s[i..] == s;
      }
    } else {
      IncludesIffOccurs(s[1..], sub);
      if Includes(s[1..], sub) {
        var i :| 0 <= i <= |s[1..]| && StartsWith(s[1..][i..], sub);
        assert s[1..][i..] == s[i + 1..];
      } else {
        forall i | 0 <= i <= |s| ensures !StartsWith(s[i..], sub) {
          if i > 0 {
            assert s[i..] == s[1..][i - 1..];
          }
        }
      }
    }
  }

  /** `sub` occurs in `s` at some position: the meaning of `includes`. */
  ghost predicate Occurs(s: string, sub: string)
  {
    exists i :: 0 <= i <= |s| && StartsWith(s[i..], sub)
  }

  /** `toLowerCase` on ASCII letters; every other code point is kept as it is. */
  function LowerChar(c: char): char
  {
    if 'A' <= c <= 'Z' then (c as int + 32) as char else c
  }

  function ToLowerAscii(s: string): (r: string)
    ensures |r| == |s|
    ensures forall i :: 0 <= i < |s| ==> r[i] == LowerChar(s[i])
  {
    if s == [] then [] else [LowerChar(s[0])] + ToLowerAscii(s[1..])
  }

  predicate IsDigit(c: char)
  {
    '0' <= c <= '9'
  }

  predicate AllDigits(s: string)
  {
    forall i :: 0 <= i < |s| ==> IsDigit(s[i])
  }

  function DigitChar(d: nat): (c: char)
    requires d < 10
    ensures IsDigit(c) && c as int - '0' as int == d
  {
    ('0' as int + d) as char
  }

  /** The decimal rendering of a non-negative integer (`n.toString()`, `${n}`). */
  function Decimal(n: nat): (r: string)
    ensures |r| >= 1 && AllDigits(r)
  {
    if n < 10 then [DigitChar(n)] else Decimal(n / 10) + [DigitChar(n % 10)]
  }

  /** The value a string of decimal digits denotes. */
  function DecimalValue(s: string): nat
    requires AllDigits(s)
  {
    if s == [] then 0 else 10 * DecimalValue(s[..|s| - 1]) + (s[|s| - 1] as int - '0' as int)
  }

  lemma {:induction false} DecimalRoundTrip(n: nat)
    ensures DecimalValue(Decimal(n)) == n
  {
    if n >= 10 {
      DecimalRoundTrip(n / 10);
      var s := Decimal(n);
      assert s[..|s| - 1] == Decimal(n / 10);
    }
  }

  /** Distinct numbers render as distinct strings. */
  lemma DecimalInjective(m: nat, n: nat)
    ensures Decimal(m) == Decimal(n) ==> m == n
  {
    DecimalRoundTrip(m);
    DecimalRoundTrip(n);
  }

  /**
   * A joint of two digit strings around one '-' splits back uniquely: this is
   * what makes identifiers such as "web-<time>-<index>" differ when the index does.
   */
  lemma DashJoinInjective(a: string, b: string, c: string, d: string)
    requires AllDigits(a) && AllDigits(b)
    ensures a + "-" + c == b + "-" + d ==> a == b && c == d
  {
    var x, y := a + "-" + c, b + "-" + d;
    if x == y {
      assert x[|a|] == '-' && y[|b|] == '-';
      assert |a| == |b|;
      assert a == x[..|a|] && b == y[..|b|];
      assert c == x[|a| + 1..] && d == y[|b| + 1..];
    }
  }

  /** `a` appears in `b` in order, possibly with gaps: what `Array.prototype.filter` returns. */
  predicate IsSublist<T(==)>(a: seq<T>, b: seq<T>)
  {
    a == [] || (b != [] && ((a[0] == b[0] && IsSublist(a[1..], b[1..])) || IsSublist(a, b[1..])))
  }

  /** The separator the web-resource response is split on. */
  const Separator: string := "---"

  /**
   * `s.split('---')`: the pieces between successive leftmost, non-overlapping
   * occurrences of the separator; a string without one is a single piece.
   */
  function SplitDashes(s: string): (chunks: seq<string>)
    ensures |chunks| >= 1
    ensures StartsWith(s, chunks[0])
  {
    if |s| < 3 then [s]
    else if s[..3] == Separator then [""] + SplitDashes(s[3..])
    else
      var rest := SplitDashes(s[1..]);
      [[s[0]] + rest[0]] + rest[1..]
  }

  /** `chunks.join('---')`. */
  function JoinDashes(chunks: seq<string>): string
    requires |chunks| >= 1
  {
    if |chunks| == 1 then chunks[0] else chunks[0] + Separator + JoinDashes(chunks[1..])
  }

  /** Splitting loses nothing: joining the pieces back gives the original text. */
  lemma {:induction false} SplitJoinRoundTrip(s: string)
    ensures JoinDashes(SplitDashes(s)) == s
  {
    if |s| < 3 {
    } else if s[..3] == Separator {
      SplitJoinRoundTrip(s[3..]);
      assert s == s[..3] + s[3..];
    } else {
      SplitJoinRoundTrip(s[1..]);
      var rest := SplitDashes(s[1..]);
      var chunks := SplitDashes(s);
      assert chunks[1..] == rest[1..];
      if |rest| == 1 {
        assert s == [s[0]] + s[1..];
      } else {
        assert JoinDashes(rest) == rest[0] + Separator + JoinDashes(rest[1..]);
        assert s == [s[0]] + s[1..];
      }
    }
  }

  /** No piece of a split contains the separator. */
  lemma {:induction false} SplitPiecesHaveNoSeparator(s: string)
    ensures forall k :: 0 <= k < |SplitDashes(s)| ==> !Includes(SplitDashes(s)[k], Separator)
  {
    if |s| < 3 {
      NoSeparatorInShort(s);
    } else if s[..3] == Separator {
      SplitPiecesHaveNoSeparator(s[3..]);
      var chunks := SplitDashes(s);
      forall k | 0 <= k < |chunks| ensures !Includes(chunks[k], Separator) {
        if k == 0 {
          NoSeparatorInShort("");
        } else {
          assert chunks[k] == SplitDashes(s[3..])[k - 1];
        }
      }
    } else {
      SplitPiecesHaveNoSeparator(s[1..]);
      var rest := SplitDashes(s[1..]);
      var chunks := SplitDashes(s);
      forall k | 0 <= k < |chunks| ensures !Includes(chunks[k], Separator) {
        if k == 0 {
          var c := chunks[0];
          assert c == [s[0]] + rest[0];
          assert c[1..] == rest[0];
          if StartsWith(c, Separator) {
            assert false;
          }
        } else {
          assert chunks[k] == rest[k];
        }
      }
    }
  }

  /**
   * The split takes the leftmost separator: the first piece holds no `---`; a
   * text that is one piece is that piece, and otherwise the first piece is
   * followed by `---` and the remaining pieces are the split of what follows it.
   */
  lemma {:induction false} SplitLeftmost(s: string)
    ensures var chunks := SplitDashes(s);
      && !Includes(chunks[0], Separator)
      && (|chunks| == 1 ==> chunks[0] == s)
      && (|chunks| > 1 ==>
            var n := |chunks[0]|;
            && n + 3 <= |s| && s[n..n + 3] == Separator
            && (forall i :: 0 <= i < n ==> !SeparatorAt(s, i))
            && chunks[1..] == SplitDashes(s[n + 3..]))
  {
    SplitPiecesHaveNoSeparator(s);
    if |s| < 3 {
    } else if s[..3] == Separator {
    } else {
      SplitLeftmost(s[1..]);
      var rest := SplitDashes(s[1..]);
      var chunks := SplitDashes(s);
      assert chunks[0] == [s[0]] + rest[0] && chunks[1..] == rest[1..];
      if |rest| == 1 {
        assert s == [s[0]] + s[1..];
      } else {
        var n := |chunks[0]|;
        assert s[1..][n - 1..n + 2] == s[n..n + 3];
        assert s[1..][n + 2..] == s[n + 3..];
        NoEarlierSeparator(s, n);
      }
    }
  }

  /** The separator starts at position `i` of `s`. */
  predicate SeparatorAt(s: string, i: nat)
  {
    i + 3 <= |s| && s[i..i + 3] == Separator
  }

  /** A separator at position i > 0 of `s` is one at position i - 1 of `s[1..]`. */
  lemma NoEarlierSeparator(s: string, n: nat)
    requires 1 <= n && n + 3 <= |s| && !SeparatorAt(s, 0)
    requires forall i :: 0 <= i < n - 1 ==> !SeparatorAt(s[1..], i)
    ensures forall i :: 0 <= i < n ==> !SeparatorAt(s, i)
  {
    forall i | 1 <= i < n ensures !SeparatorAt(s, i) {
      assert s[i..i + 3] == s[1..][i - 1..i + 2];
      assert !SeparatorAt(s[1..], i - 1);
    }
  }

  lemma {:induction false} NoSeparatorInShort(s: string)
    requires |s| < 3
    ensures !Includes(s, Separator)
  {
    if s != [] {
      NoSeparatorInShort(s[1..]);
    }
  }

  /** Index of the first position at or after `p` that is not whitespace, or |s|. */
  function SkipSpaces(s: string, p: nat): (k: nat)
    requires p <= |s|
    ensures p <= k <= |s|
    ensures forall i :: p <= i < k ==> IsSpace(s[i])
    ensures k < |s| ==> !IsSpace(s[k])
    decreases |s| - p
  {
    if p < |s| && IsSpace(s[p]) then SkipSpaces(s, p + 1) else p
  }

  /** End of the line that position `k` is on: the next line terminator, or |s|. */
  function LineEnd(s: string, k: nat): (e: nat)
    requires k <= |s|
    ensures k <= e <= |s|
    ensures forall i :: k <= i < e ==> !IsLineTerminator(s[i])
    ensures e < |s| ==> IsLineTerminator(s[e])
    decreases |s| - k
  {
    if k < |s| && !IsLineTerminator(s[k]) then LineEnd(s, k + 1) else k
  }

  /** The last position in [p, k) that holds no line terminator, if any. */
  function LastOnLine(s: string, p: nat, k: nat): (j: Option<nat>)
    requires p <= k <= |s|
    ensures j.Some? ==> p <= j.value < k && !IsLineTerminator(s[j.value])
    ensures j.Some? ==> forall i :: j.value < i < k ==> IsLineTerminator(s[i])
    ensures j.None? ==> forall i :: p <= i < k ==> IsLineTerminator(s[i])
    decreases k - p
  {
    if k == p then None
    else if !IsLineTerminator(s[k - 1]) then Some(k - 1)
    else LastOnLine(s, p, k - 1)
  }

  /**
   * What `\s*(.+)` captures when the match starts at `p`, with the engine's
   * backtracking: the greedy `\s*` takes all whitespace; if a character of a
   * line follows, `(.+)` takes the rest of that line; only when the whitespace
   * runs to the end of the text does `\s*` give back, and then `(.+)` captures
   * the single last whitespace character that is not a line terminator.
   */
  function CaptureAt(s: string, p: nat): (r: Option<string>)
    requires p <= |s|
    ensures r.Some? ==> |r.value| >= 1
    ensures r.Some? ==> forall i :: 0 <= i < |r.value| ==> !IsLineTerminator(r.value[i])
    ensures SkipSpaces(s, p) < |s| ==> r == Some(s[SkipSpaces(s, p)..LineEnd(s, SkipSpaces(s, p))])
    ensures SkipSpaces(s, p) == |s| ==> (r.None? <==> forall i :: p <= i < |s| ==> IsLineTerminator(s[i]))
    ensures SkipSpaces(s, p) == |s| && r.Some? ==>
      exists j :: p <= j < |s| && r.value == [s[j]] && IsSpace(s[j]) && !IsLineTerminator(s[j])
        && forall i :: j < i < |s| ==> IsLineTerminator(s[i])
  {
    var k := SkipSpaces(s, p);
    if k < |s| then Some(s[k..LineEnd(s, k)])
    else
      match LastOnLine(s, p, k)
      case None => None
      case Some(j) => Some([s[j]])
  }

  /**
   * `s.match(/<Key>\s*(.+)/)`, searching from position `from`: group 1 of the
   * leftmost match, or None when there is no match.
   */
  function MatchLine(s: string, key: string, from: nat): (r: Option<string>)
    requires |key| > 0
    ensures r.Some? ==> |r.value| >= 1
    ensures r.Some? ==> forall i :: 0 <= i < |r.value| ==> !IsLineTerminator(r.value[i])
    ensures r.Some? ==> from + |key| <= |s|
    decreases |s| - from
  {
    if from + |key| > |s| then None
    else if s[from..from + |key|] == key && CaptureAt(s, from + |key|).Some? then
      CaptureAt(s, from + |key|)
    else
      MatchLine(s, key, from + 1)
  }

  /** The key occurs at `p` and the text after it gives `\s*(.+)` something to capture. */
  predicate KeyMatchesAt(s: string, key: string, p: nat)
  {
    p + |key| <= |s| && s[p..p + |key|] == key && CaptureAt(s, p + |key|).Some?
  }

  /**
   * The search returns the capture of the leftmost position, from `from` on,
   * where the key matches, and fails exactly when there is none.
   */
  lemma {:induction false} MatchLineLeftmost(s: string, key: string, from: nat)
    requires |key| > 0
    ensures MatchLine(s, key, from).None? <==> forall p :: from <= p ==> !KeyMatchesAt(s, key, p)
    ensures MatchLine(s, key, from).Some? ==>
      exists p :: from <= p && KeyMatchesAt(s, key, p) && MatchLine(s, key, from) == CaptureAt(s, p + |key|)
        && forall q :: from <= q < p ==> !KeyMatchesAt(s, key, q)
    decreases |s| - from
  {
    if from + |key| > |s| {
    } else if KeyMatchesAt(s, key, from) {
    } else {
      MatchLineLeftmost(s, key, from + 1);
      if MatchLine(s, key, from).Some? {
        var p :| from + 1 <= p && KeyMatchesAt(s, key, p) && MatchLine(s, key, from + 1) == CaptureAt(s, p + |key|)
          && forall q :: from + 1 <= q < p ==> !KeyMatchesAt(s, key, q);
        assert forall q :: from <= q < p ==> !KeyMatchesAt(s, key, q);
      }
    }
  }

  /**
   * When the leftmost match of the key is at `at` and text other than
   * whitespace follows it, the capture runs from the first such character to
   * the end of its line.
   */
  lemma MatchLineCapturesRestOfLine(s: string, key: string, from: nat, at: nat)
    requires |key| > 0 && from <= at && at + |key| <= |s| && s[at..at + |key|] == key
    requires SkipSpaces(s, at + |key|) < |s|
    requires forall q :: from <= q < at ==> !KeyMatchesAt(s, key, q)
    ensures var k := SkipSpaces(s, at + |key|); MatchLine(s, key, from) == Some(s[k..LineEnd(s, k)])
  {
    MatchLineLeftmost(s, key, from);
    assert KeyMatchesAt(s, key, at);
  }

  /**
   * Whenever the key is followed on its line by a character that is not
   * whitespace, the search finds a match, and one at or before that key.
   */
  lemma {:induction false} MatchLineFindsLabel(s: string, key: string, from: nat, at: nat)
    requires |key| > 0 && from <= at && at + |key| < |s|
    requires s[at..at + |key|] == key && !IsSpace(s[at + |key|])
    ensures MatchLine(s, key, from).Some?
    decreases at - from
  {
    if s[from..from + |key|] == key && CaptureAt(s, from + |key|).Some? {
    } else if from == at {
      assert SkipSpaces(s, at + |key|) == at + |key|;
    } else {
      MatchLineFindsLabel(s, key, from + 1, at);
    }
  }
}
