/**
 * The Python string built-ins that the text chunker is made of: `str.isspace`,
 * `str.split()` with no separator, `" ".join`, `str.strip()`, and
 * `re.split(r'(?<=[S])\s+', t)` on text whose whitespace is already single spaces.
 */
module Text {

  /** `c.isspace()` in Python: the characters `str.split()`, `str.strip()` and `\s` treat as whitespace. */
  predicate IsSpace(c: char) {
    || c == ' '
    || ('\t' <= c <= '\r')
    || ('\U{1C}' <= c <= '\U{1F}')
    || c == '\U{85}' || c == '\U{A0}' || c == '\U{1680}'
    || ('\U{2000}' <= c <= '\U{200A}')
    || c == '\U{2028}' || c == '\U{2029}' || c == '\U{202F}' || c == '\U{205F}' || c == '\U{3000}'
  }

  /** `not s.strip()`: the string holds nothing but whitespace (the empty string included). */
  predicate IsBlank(s: string) {
    forall i | 0 <= i < |s| :: IsSpace(s[i])
  }

  /** A word of `str.split()`: a non-empty run of non-whitespace characters. */
  predicate IsWord(w: string) {
    w != "" && forall i | 0 <= i < |w| :: !IsSpace(w[i])
  }

  /**
   * Text in the form `" ".join(t.split())` produces: the only whitespace is the
   * plain space, and there is no leading, trailing or doubled space.
   */
  predicate Normalized(t: string) {
    && (forall i | 0 <= i < |t| :: IsSpace(t[i]) ==> t[i] == ' ')
    && (|t| > 0 ==> t[0] != ' ' && t[|t| - 1] != ' ')
    && (forall i | 0 <= i < |t| - 1 :: t[i] == ' ' ==> t[i + 1] != ' ')
  }

  /** `str.split()` scanning `s`, with `cur` the word read so far. */
  function WordsFrom(s: string, cur: string): seq<string>
    decreases |s|
  {
    if s == [] then (if cur == "" then [] else [cur])
    else if IsSpace(s[0]) then (if cur == "" then [] else [cur]) + WordsFrom(s[1..], "")
    else WordsFrom(s[1..], cur + [s[0]])
  }

  /** `s.split()`: the maximal runs of non-whitespace characters, in order. */
  function Words(s: string): seq<string> {
    WordsFrom(s, "")
  }

  /** `" ".join(parts)`. */
  function JoinSpace(parts: seq<string>): string {
    if |parts| == 0 then ""
    else if |parts| == 1 then parts[0]
    else parts[0] + " " + JoinSpace(parts[1..])
  }

  /** `" ".join(s.split())`: whitespace runs collapsed to one space, both ends trimmed. */
  function Normalize(s: string): string {
    JoinSpace(Words(s))
  }

  function TrimLeft(s: string): string
    decreases |s|
  {
    if s != "" && IsSpace(s[0]) then TrimLeft(s[1..]) else s
  }

  function TrimRight(s: string): string
    decreases |s|
  {
    if s != "" && IsSpace(s[|s| - 1]) then TrimRight(s[..|s| - 1]) else s
  }

  /** `s.strip()`. */
  function Strip(s: string): string {
    TrimRight(TrimLeft(s))
  }

  /** No space in `s` stands right after a character of `marks`: `s` holds no split point. */
  predicate NoBreak(s: string, marks: set<char>) {
    forall j | 0 < j < |s| :: s[j] == ' ' ==> s[j - 1] !in marks
  }

  /** The split scan of `SplitAfter`, with `cur` the piece read so far. */
  function SplitFrom(s: string, marks: set<char>, cur: string): seq<string>
    decreases |s|
  {
    if s == [] then [cur]
    else if s[0] == ' ' && cur != "" && cur[|cur| - 1] in marks then [cur] + SplitFrom(s[1..], marks, "")
    else SplitFrom(s[1..], marks, cur + [s[0]])
  }

  /**
   * `re.split(r'(?<=[marks])\s+', s)` for text whose whitespace runs are single
   * spaces: cut at every space whose preceding character is one of `marks`.
   */
  function SplitAfter(s: string, marks: set<char>): seq<string> {
    SplitFrom(s, marks, "")
  }

  // ---------------------------------------------------------------------------
  // " ".join

  lemma {:induction false} JoinAppend(a: seq<string>, b: seq<string>)
    requires a != [] && b != []
    ensures JoinSpace(a + b) == JoinSpace(a) + " " + JoinSpace(b)
  {
    if |a| == 1 {
      assert (a + b)[1..] == b;
    } else {
      assert (a + b)[1..] == a[1..] + b;
      JoinAppend(a[1..], b);
    }
  }

  /** Every element of a list occurs, as a substring, in the list joined with spaces. */
  lemma {:induction false} JoinElementInfix(cs: seq<string>, k: nat)
    requires k < |cs|
    ensures exists x, y :: JoinSpace(cs) == x + cs[k] + y
  {
    if |cs| == 1 {
      assert JoinSpace(cs) == "" + cs[k] + "";
    } else if k == 0 {
      assert JoinSpace(cs) == "" + cs[0] + (" " + JoinSpace(cs[1..]));
    } else {
      JoinElementInfix(cs[1..], k - 1);
      var x, y :| JoinSpace(cs[1..]) == x + cs[1..][k - 1] + y;
      assert JoinSpace(cs) == (cs[0] + " " + x) + cs[k] + y;
    }
  }

  // ---------------------------------------------------------------------------
  // Normalized text

  /** `x + " " + y` is normalized exactly when both sides are non-empty and normalized. */
  lemma NormalizedPair(x: string, y: string)
    ensures Normalized(x + " " + y) <==> (x != "" && y != "" && Normalized(x) && Normalized(y))
  {
    if Normalized(x + " " + y) {
      NormalizedPairParts(x, y);
    }
    if x != "" && y != "" && Normalized(x) && Normalized(y) {
      NormalizedPairJoin(x, y);
    }
  }

  /** The sides of a normalized `x + " " + y` are non-empty and normalized. */
  lemma NormalizedPairParts(x: string, y: string)
    requires Normalized(x + " " + y)
    ensures x != "" && y != "" && Normalized(x) && Normalized(y)
  {
    var t := x + " " + y;
    var n := |x|;
    assert t[n] == ' ';
    assert forall i | 0 <= i < n :: t[i] == x[i];
    assert forall i | 0 <= i < |y| :: t[n + 1 + i] == y[i];
    assert x != "" && y != "";
    assert x[n - 1] != ' ';
    assert forall i | 0 <= i < |x| - 1 :: x[i] == ' ' ==> x[i + 1] != ' ' by {
      forall i | 0 <= i < |x| - 1 && x[i] == ' ' ensures x[i + 1] != ' ' {
        assert t[i] == ' ' && t[i + 1] == x[i + 1];
      }
    }
    assert y[0] != ' ' by { assert t[n] == ' ' ==> t[n + 1] != ' '; }
    assert forall i | 0 <= i < |y| - 1 :: y[i] == ' ' ==> y[i + 1] != ' ' by {
      forall i | 0 <= i < |y| - 1 && y[i] == ' ' ensures y[i + 1] != ' ' {
        assert t[n + 1 + i] == ' ' && t[n + 1 + i + 1] == y[i + 1];
      }
    }
    assert forall i | 0 <= i < |y| :: IsSpace(y[i]) ==> y[i] == ' ' by {
      forall i | 0 <= i < |y| ensures IsSpace(y[i]) ==> y[i] == ' ' {
        assert t[n + 1 + i] == y[i];
      }
    }
  }

  /** Two non-empty normalized strings joined with one space give a normalized string. */
  lemma NormalizedPairJoin(x: string, y: string)
    requires x != "" && y != "" && Normalized(x) && Normalized(y)
    ensures Normalized(x + " " + y)
  {
    var t := x + " " + y;
    var n := |x|;
    assert t[n] == ' ';
    assert forall i | 0 <= i < n :: t[i] == x[i];
    forall i | 0 <= i < |t| ensures IsSpace(t[i]) ==> t[i] == ' ' {
      if i > n { assert t[i] == y[i - n - 1]; }
    }
    forall i | 0 <= i < |t| - 1 && t[i] == ' ' ensures t[i + 1] != ' ' {
      if i < n - 1 {
        assert t[i + 1] == x[i + 1];
      } else if i == n {
        assert t[i + 1] == y[0];
      } else {
        assert t[i] == y[i - n - 1] && t[i + 1] == y[i - n];
      }
    }
    assert t[|t| - 1] == y[|y| - 1];
  }

  /**
   * A list joined with spaces is non-empty and normalized exactly when the list
   * is non-empty and every element is non-empty and normalized.
   */
  lemma {:induction false} NormalizedJoin(ps: seq<string>)
    ensures (JoinSpace(ps) != "" && Normalized(JoinSpace(ps)))
        <==> (ps != [] && forall k | 0 <= k < |ps| :: ps[k] != "" && Normalized(ps[k]))
  {
    if |ps| >= 2 {
      var rest := ps[1..];
      NormalizedPair(ps[0], JoinSpace(rest));
      NormalizedJoin(rest);
      assert forall k | 1 <= k < |ps| :: ps[k] == rest[k - 1];
      if forall k | 0 <= k < |ps| :: ps[k] != "" && Normalized(ps[k]) {
        assert forall k | 0 <= k < |rest| :: rest[k] != "" && Normalized(rest[k]) by {
          forall k | 0 <= k < |rest| ensures rest[k] != "" && Normalized(rest[k]) {
            assert rest[k] == ps[k + 1];
          }
        }
      }
    }
  }

  /** The words of `str.split()` are words, and there are none exactly for blank text. */
  lemma {:induction false} WordsFromShape(s: string, cur: string)
    requires forall i | 0 <= i < |cur| :: !IsSpace(cur[i])
    ensures forall k | 0 <= k < |WordsFrom(s, cur)| :: IsWord(WordsFrom(s, cur)[k])
    ensures WordsFrom(s, cur) == [] <==> (cur == "" && IsBlank(s))
    decreases |s|
  {
    if s == [] {
    } else if IsSpace(s[0]) {
      WordsFromShape(s[1..], "");
      assert IsBlank(s) <==> IsBlank(s[1..]) by {
        assert forall i | 1 <= i < |s| :: s[i] == s[1..][i - 1];
      }
    } else {
      WordsFromShape(s[1..], cur + [s[0]]);
    }
  }

  /** `" ".join(s.split())` is normalized, and empty exactly when `s` is blank. */
  lemma NormalizeShape(s: string)
    ensures Normalized(Normalize(s))
    ensures Normalize(s) == "" <==> IsBlank(s)
  {
    WordsFromShape(s, "");
    NormalizedJoin(Words(s));
  }

  /** `strip()` leaves normalized text untouched. */
  lemma StripNormalized(t: string)
    requires Normalized(t)
    ensures Strip(t) == t
  {
  }

  lemma {:induction false} TrimLeftShape(s: string)
    ensures TrimLeft(s) == "" <==> IsBlank(s)
    ensures TrimLeft(s) != "" ==> !IsSpace(TrimLeft(s)[0])
    decreases |s|
  {
    if s != "" && IsSpace(s[0]) {
      TrimLeftShape(s[1..]);
      assert forall i | 1 <= i < |s| :: s[i] == s[1..][i - 1];
    }
  }

  lemma {:induction false} TrimRightKeepsHead(s: string)
    requires s != "" && !IsSpace(s[0])
    ensures TrimRight(s) != ""
    decreases |s|
  {
    if IsSpace(s[|s| - 1]) {
      TrimRightKeepsHead(s[..|s| - 1]);
    }
  }

  /** `not s.strip()` holds exactly for blank text. */
  lemma StripBlank(s: string)
    ensures Strip(s) == "" <==> IsBlank(s)
  {
    TrimLeftShape(s);
    if TrimLeft(s) != "" {
      TrimRightKeepsHead(TrimLeft(s));
    }
  }

  // ---------------------------------------------------------------------------
  // Splitting after marks

  /** Splitting never drops, adds or reorders a character: the pieces rejoin to the input. */
  lemma {:induction false} SplitFromRoundTrip(s: string, marks: set<char>, cur: string)
    ensures |SplitFrom(s, marks, cur)| >= 1
    ensures JoinSpace(SplitFrom(s, marks, cur)) == cur + s
    decreases |s|
  {
    if s == [] {
    } else if s[0] == ' ' && cur != "" && cur[|cur| - 1] in marks {
      var rest := SplitFrom(s[1..], marks, "");
      SplitFromRoundTrip(s[1..], marks, "");
      assert ([cur] + rest)[1..] == rest;
      assert s == " " + s[1..];
    } else {
      SplitFromRoundTrip(s[1..], marks, cur + [s[0]]);
      assert s == [s[0]] + s[1..];
    }
  }

  /** No piece holds a split point, and each piece but the last ends with a mark. */
  lemma {:induction false} SplitFromPieces(s: string, marks: set<char>, cur: string)
    requires ' ' !in marks
    requires NoBreak(cur, marks)
    ensures forall k | 0 <= k < |SplitFrom(s, marks, cur)| :: NoBreak(SplitFrom(s, marks, cur)[k], marks)
    ensures forall k | 0 <= k < |SplitFrom(s, marks, cur)| - 1 ::
      SplitFrom(s, marks, cur)[k] != "" && SplitFrom(s, marks, cur)[k][|SplitFrom(s, marks, cur)[k]| - 1] in marks
    decreases |s|
  {
    if s == [] {
    } else if s[0] == ' ' && cur != "" && cur[|cur| - 1] in marks {
      SplitFromPieces(s[1..], marks, "");
      var rest := SplitFrom(s[1..], marks, "");
      assert forall k | 1 <= k < |[cur] + rest| :: ([cur] + rest)[k] == rest[k - 1];
    } else {
      var next := cur + [s[0]];
      assert NoBreak(next, marks) by {
        forall j | 0 < j < |next| && next[j] == ' ' ensures next[j - 1] !in marks {
          if j < |cur| { assert next[j] == cur[j] && next[j - 1] == cur[j - 1]; }
        }
      }
      SplitFromPieces(s[1..], marks, next);
    }
  }

  /** The properties of `SplitAfter` on normalized text that the chunker relies on. */
  lemma SplitAfterShape(s: string, marks: set<char>)
    requires ' ' !in marks
    ensures JoinSpace(SplitAfter(s, marks)) == s
    ensures SplitAfter(s, marks) != []
    ensures forall k | 0 <= k < |SplitAfter(s, marks)| :: NoBreak(SplitAfter(s, marks)[k], marks)
    ensures forall k | 0 <= k < |SplitAfter(s, marks)| - 1 ::
      SplitAfter(s, marks)[k] != "" && SplitAfter(s, marks)[k][|SplitAfter(s, marks)[k]| - 1] in marks
    ensures s != "" && Normalized(s) ==>
      forall k | 0 <= k < |SplitAfter(s, marks)| :: SplitAfter(s, marks)[k] != "" && Normalized(SplitAfter(s, marks)[k])
  {
    SplitFromRoundTrip(s, marks, "");
    SplitFromPieces(s, marks, "");
    NormalizedJoin(SplitAfter(s, marks));
  }

  /** A substring of text without split points has none either. */
  lemma NoBreakInfix(x: string, y: string, z: string, marks: set<char>)
    requires NoBreak(x + y + z, marks)
    ensures NoBreak(y, marks)
  {
    var t := x + y + z;
    forall j | 0 < j < |y| && y[j] == ' ' ensures y[j - 1] !in marks {
      assert t[|x| + j] == y[j] && t[|x| + j - 1] == y[j - 1];
    }
  }

  /** If the joined text has no split point, no element of the list has one. */
  lemma NoBreakElements(cs: seq<string>, marks: set<char>)
    requires NoBreak(JoinSpace(cs), marks)
    ensures forall k | 0 <= k < |cs| :: NoBreak(cs[k], marks)
  {
    forall k | 0 <= k < |cs| ensures NoBreak(cs[k], marks) {
      JoinElementInfix(cs, k);
      var x, y :| JoinSpace(cs) == x + cs[k] + y;
      NoBreakInfix(x, cs[k], y, marks);
    }
  }
}
