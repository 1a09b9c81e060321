/**
 * Hand-written recognisers for the regular expressions of the company page
 * parser, with Python `re` semantics: the leftmost match wins, alternatives
 * are tried left to right, a lazy `+?` tries the shortest length first and
 * a greedy `*` the longest, and `.` matches anything except a line break.
 * Each function below follows the order in which the backtracking matcher
 * visits its choices.
 */
module CompanyPatterns {
  import opened Wrappers
  import opened Text

  // ------------------------------------------------ phone numbers
  // (\(\d{3}\) \d{3}-\d{4}|\d{3}-\d{3}-\d{4}|\d{10})

  /** `\(\d{3}\) \d{3}-\d{4}` at `i`. */
  predicate ParenPhoneAt(s: string, i: nat) {
    && i + 14 <= |s|
    && s[i] == '(' && DigitsAt(s, i + 1, 3) && s[i + 4] == ')' && s[i + 5] == ' '
    && DigitsAt(s, i + 6, 3) && s[i + 9] == '-' && DigitsAt(s, i + 10, 4)
  }

  /** `\d{3}-\d{3}-\d{4}` at `i`. */
  predicate DashPhoneAt(s: string, i: nat) {
    && i + 12 <= |s|
    && DigitsAt(s, i, 3) && s[i + 3] == '-' && DigitsAt(s, i + 4, 3) && s[i + 7] == '-'
    && DigitsAt(s, i + 8, 4)
  }

  /** `\d{10}` at `i`. */
  predicate BarePhoneAt(s: string, i: nat) {
    DigitsAt(s, i, 10)
  }

  /**
   * At most one alternative can match at a position: the parenthesised
   * form starts with `(`, the other two with a digit, and the dashed form
   * has `-` where the bare one has its fourth digit.
   */
  lemma PhoneFormatsExclusive(s: string, i: nat)
    ensures !(ParenPhoneAt(s, i) && DashPhoneAt(s, i))
    ensures !(ParenPhoneAt(s, i) && BarePhoneAt(s, i))
    ensures !(DashPhoneAt(s, i) && BarePhoneAt(s, i))
  {
    if DashPhoneAt(s, i) || BarePhoneAt(s, i) {
      assert IsDigit(s[i]);
    }
    if BarePhoneAt(s, i) {
      assert IsDigit(s[i + 3]);
    }
  }

  /**
   * Length of the phone match starting at `i`, or 0: 14, 12 or 10 exactly
   * when the parenthesised, dashed or bare format is found there, and 0
   * exactly when none is.
   */
  function PhoneMatchLength(s: string, i: nat): (n: nat)
    ensures n == 14 <==> ParenPhoneAt(s, i)
    ensures n == 12 <==> DashPhoneAt(s, i)
    ensures n == 10 <==> BarePhoneAt(s, i)
    ensures n == 0 <==> !ParenPhoneAt(s, i) && !DashPhoneAt(s, i) && !BarePhoneAt(s, i)
    ensures n == 0 || n == 10 || n == 12 || n == 14
    ensures n > 0 ==> i + n <= |s|
  {
    PhoneFormatsExclusive(s, i);
    if ParenPhoneAt(s, i) then 14
    else if DashPhoneAt(s, i) then 12
    else if BarePhoneAt(s, i) then 10
    else 0
  }

  /** A whole string that one alternative of the phone pattern matches. */
  predicate IsPhoneText(m: string) {
    || (|m| == 14 && ParenPhoneAt(m, 0))
    || (|m| == 12 && DashPhoneAt(m, 0))
    || (|m| == 10 && BarePhoneAt(m, 0))
  }

  lemma PhoneMatchText(s: string, i: nat)
    requires PhoneMatchLength(s, i) > 0
    ensures IsPhoneText(s[i..i + PhoneMatchLength(s, i)])
  {
    var m := s[i..i + PhoneMatchLength(s, i)];
    assert forall k :: 0 <= k < |m| ==> m[k] == s[i + k];
  }

  /**
   * `phone_number_regex.findall(s[i..])`: the leftmost non-overlapping
   * matches, in order. Each takes at least ten characters of its own, so
   * there are at most a tenth as many as characters scanned.
   */
  function PhoneFindAll(s: string, i: nat): (r: seq<string>)
    requires i <= |s|
    ensures 10 * |r| <= |s| - i
    decreases |s| - i
  {
    if i == |s| then []
    else
      var n := PhoneMatchLength(s, i);
      if n == 0 then PhoneFindAll(s, i + 1)
      else [s[i..i + n]] + PhoneFindAll(s, i + n)
  }

  /** Every string `findall` returns is one of the three phone formats. */
  lemma {:induction false} PhoneFindAllText(s: string, i: nat)
    requires i <= |s|
    ensures forall k :: 0 <= k < |PhoneFindAll(s, i)| ==> IsPhoneText(PhoneFindAll(s, i)[k])
    decreases |s| - i
  {
    if i < |s| {
      var n := PhoneMatchLength(s, i);
      if n == 0 {
        PhoneFindAllText(s, i + 1);
      } else {
        PhoneMatchText(s, i);
        PhoneFindAllText(s, i + n);
      }
    }
  }

  /** Without a match from `i` on, `findall` returns nothing. */
  lemma {:induction false} PhoneFindAllNone(s: string, i: nat)
    requires i <= |s| && forall k :: i <= k < |s| ==> PhoneMatchLength(s, k) == 0
    ensures PhoneFindAll(s, i) == []
    decreases |s| - i
  {
    if i < |s| {
      PhoneFindAllNone(s, i + 1);
    }
  }

  /**
   * The leftmost match comes first: when `j` is the first position from
   * `i` on where the pattern matches, `findall` returns that match and
   * resumes right after it.
   */
  lemma {:induction false} PhoneFindAllLeftmost(s: string, i: nat, j: nat)
    requires i <= j < |s| && PhoneMatchLength(s, j) > 0
    requires forall k :: i <= k < j ==> PhoneMatchLength(s, k) == 0
    ensures PhoneFindAll(s, i) == [s[j..j + PhoneMatchLength(s, j)]] + PhoneFindAll(s, j + PhoneMatchLength(s, j))
    decreases j - i
  {
    if i < j {
      PhoneFindAllLeftmost(s, i + 1, j);
    }
  }

  /** `phone_number_regex.findall(line)`. */
  function PhoneMatches(line: string): seq<string>
  {
    PhoneFindAll(line, 0)
  }

  /** Stripping the non-digits from a phone match leaves exactly its ten digits. */
  lemma PhoneDigits(m: string)
    requires IsPhoneText(m)
    ensures |DigitsOnly(m)| == 10
    ensures |m| == 14 ==> DigitsOnly(m) == m[1..4] + m[6..9] + m[10..14]
    ensures |m| == 12 ==> DigitsOnly(m) == m[..3] + m[4..7] + m[8..12]
    ensures |m| == 10 ==> DigitsOnly(m) == m
  {
    if |m| == 14 {
      ParenPhoneDigits(m);
    } else if |m| == 12 {
      DashPhoneDigits(m);
    } else {
      DigitsOnlyOfDigits(m);
    }
  }

  /** Removing the non-digits from `s[i..k]` works on `s[i..j]` and `s[j..k]` separately. */
  lemma DigitsOnlyRange(s: string, i: nat, j: nat, k: nat)
    requires i <= j <= k <= |s|
    ensures DigitsOnly(s[i..k]) == DigitsOnly(s[i..j]) + DigitsOnly(s[j..k])
  {
    assert s[i..k] == s[i..j] + s[j..k];
    DigitsOnlyAppend(s[i..j], s[j..k]);
  }

  /** A separator `s[i..j]` of non-digits followed by a digit group `s[j..k]` leaves the group. */
  lemma SeparatedGroup(s: string, i: nat, j: nat, k: nat)
    requires i <= j <= k <= |s|
    requires forall x :: i <= x < j ==> !IsDigit(s[x])
    requires DigitsAt(s, j, k - j)
    ensures DigitsOnly(s[i..k]) == s[j..k]
  {
    DigitsOnlyRange(s, i, j, k);
    DigitsOnlyNone(s[i..j]);
    DigitsOnlyOfDigits(s[j..k]);
  }

  lemma ParenPhoneDigits(m: string)
    requires |m| == 14 && ParenPhoneAt(m, 0)
    ensures DigitsOnly(m) == m[1..4] + m[6..9] + m[10..14]
  {
    SeparatedGroup(m, 0, 1, 4);
    SeparatedGroup(m, 4, 6, 9);
    SeparatedGroup(m, 9, 10, 14);
    DigitsOnlyRange(m, 0, 4, 9);
    DigitsOnlyRange(m, 0, 9, 14);
    assert m[0..14] == m;
  }

  lemma DashPhoneDigits(m: string)
    requires |m| == 12 && DashPhoneAt(m, 0)
    ensures DigitsOnly(m) == m[..3] + m[4..7] + m[8..12]
  {
    SeparatedGroup(m, 0, 0, 3);
    SeparatedGroup(m, 3, 4, 7);
    SeparatedGroup(m, 7, 8, 12);
    DigitsOnlyRange(m, 0, 3, 7);
    DigitsOnlyRange(m, 0, 7, 12);
    assert m[0..12] == m && m[0..3] == m[..3];
  }

  // ------------------------------------------------ shared pieces

  /**
   * A lazy `.+?` that started at `start` and has so far swallowed
   * `s[start..r]`, followed by the literal `lit`: the smallest end
   * `e >= r` at which `lit` occurs with no line break in `s[start..e]`.
   */
  function LazyAnyThen(s: string, start: nat, r: nat, lit: string): (e: Option<nat>)
    requires start < r && NoBreak(s, start, r - 1)
    ensures e.Some? ==> r <= e.value && OccursAt(s, lit, e.value) && NoBreak(s, start, e.value)
    ensures e.Some? ==> forall k :: r <= k < e.value ==> !OccursAt(s, lit, k)
    ensures e.None? ==> forall k :: r <= k && NoBreak(s, start, k) ==> !OccursAt(s, lit, k)
    decreases |s| + 1 - r
  {
    if r > |s| || s[r - 1] == '\n' then None
    else if OccursAt(s, lit, r) then Some(r)
    else LazyAnyThen(s, start, r + 1, lit)
  }

  // ------------------------------------------------ former-name sentences
  // (formerly:.+?\(filings through .+?\))

  const Formerly: string := "formerly:"
  const FilingsThrough: string := "(filings through "

  /**
   * A string the former-name sentence pattern matches as a whole: one line
   * that starts with `formerly:`, has `(filings through ` after at least
   * one more character, and ends with `)` at least one character later.
   */
  ghost predicate IsSentence(t: string) {
    && OccursAt(t, Formerly, 0)
    && |t| > |Formerly| && t[|t| - 1] == ')'
    && NoBreak(t, 0, |t|)
    && exists q :: 10 <= q && q + 18 < |t| && OccursAt(t, FilingsThrough, q)
  }

  /**
   * Match of the sentence pattern at `i` ("formerly:" at `i`), with the first
   * `.+?` ending at candidate `p`, where `(filings through ` must begin.
   * Returns the end of the match.
   */
  function SentenceEndFrom(s: string, i: nat, p: nat): (e: Option<nat>)
    requires OccursAt(s, Formerly, i) && i + 9 < p && NoBreak(s, i + 9, p - 1)
    ensures e.Some? ==> p < e.value <= |s| && s[e.value - 1] == ')' && NoBreak(s, i + 9, e.value)
    ensures e.None? ==> forall p': nat, c: nat :: p <= p' ==> !SentenceShape(s, i, p', c)
    decreases |s| + 1 - p
  {
    if p > |s| || s[p - 1] == '\n' then None
    else if OccursAt(s, FilingsThrough, p) && LazyAnyThen(s, p + 17, p + 18, ")").Some? then
      var c := LazyAnyThen(s, p + 17, p + 18, ")").value;
      assert s[p..p + 17] == FilingsThrough;
      assert NoBreak(s, p, p + 17) by {
        forall k | p <= k < p + 17 ensures s[k] != '\n' {
          assert s[k] == FilingsThrough[k - p];
        }
      }
      assert s[c..c + 1] == ")";
      Some(c + 1)
    else SentenceEndFrom(s, i, p + 1)
  }

  /**
   * One way the sentence pattern can match at `k`, stated on its own: the
   * first `.+?` ends at `p`, where `(filings through ` begins, and the
   * second ends at `c`, which holds the closing `)`; all on one line.
   */
  predicate SentenceShape(s: string, k: nat, p: nat, c: nat) {
    && OccursAt(s, Formerly, k)
    && k + 10 <= p && NoBreak(s, k + 9, p)
    && OccursAt(s, FilingsThrough, p)
    && p + 18 <= c && NoBreak(s, p + 17, c)
    && OccursAt(s, ")", c)
  }

  /**
   * The shape the backtracking of two lazy groups finds first, trying the
   * first group's end from `lo`: the smallest `p` that admits any `c`,
   * then the smallest `c` for it.
   */
  ghost predicate FirstSentenceShape(s: string, k: nat, lo: nat, p: nat, c: nat) {
    && SentenceShape(s, k, p, c)
    && (forall p': nat, c': nat :: lo <= p' < p ==> !SentenceShape(s, k, p', c'))
    && (forall c': nat :: c' < c ==> !SentenceShape(s, k, p, c'))
  }

  /** Backtracking finds one shape first. */
  lemma FirstSentenceShapeUnique(s: string, k: nat, lo: nat, p: nat, c: nat, q: nat, d: nat)
    requires FirstSentenceShape(s, k, lo, p, c) && FirstSentenceShape(s, k, lo, q, d)
    requires lo <= p && lo <= q
    ensures p == q && c == d
  {
    assert !(p < q) && !(q < p) by {
      assert SentenceShape(s, k, p, c) && SentenceShape(s, k, q, d);
    }
    assert SentenceShape(s, k, p, c) && SentenceShape(s, k, p, d);
  }

  /** An end found is one past the `)` of the first shape from the candidate `p` on. */
  lemma {:induction false} SentenceEndFromFound(s: string, i: nat, p: nat)
    requires OccursAt(s, Formerly, i) && i + 9 < p && NoBreak(s, i + 9, p - 1)
    ensures SentenceEndFrom(s, i, p).Some? ==> exists q: nat, c: nat ::
      p <= q && c + 1 == SentenceEndFrom(s, i, p).value && FirstSentenceShape(s, i, p, q, c)
    decreases |s| + 1 - p
  {
    if p <= |s| && s[p - 1] != '\n' {
      if OccursAt(s, FilingsThrough, p) && LazyAnyThen(s, p + 17, p + 18, ")").Some? {
        var c := LazyAnyThen(s, p + 17, p + 18, ")").value;
        assert SentenceShape(s, i, p, c);
        assert FirstSentenceShape(s, i, p, p, c);
      } else {
        SentenceEndFromFound(s, i, p + 1);
        if SentenceEndFrom(s, i, p).Some? {
          var q: nat, c: nat :| p + 1 <= q && c + 1 == SentenceEndFrom(s, i, p + 1).value
            && FirstSentenceShape(s, i, p + 1, q, c);
          SentenceShapeSkip(s, i, p, q, c);
        }
      }
    }
  }

  /** A candidate `p` that holds no `(filings through ` with a reachable `)` is passed over. */
  lemma SentenceShapeSkip(s: string, i: nat, p: nat, q: nat, c: nat)
    requires !(OccursAt(s, FilingsThrough, p) && LazyAnyThen(s, p + 17, p + 18, ")").Some?)
    requires FirstSentenceShape(s, i, p + 1, q, c)
    ensures FirstSentenceShape(s, i, p, q, c)
  {
    assert forall c': nat :: !SentenceShape(s, i, p, c');
  }

  /** A sentence match holds `(filings through ` after the candidate `p`, with room for `.+?\)` after it. */
  lemma {:induction false} SentenceEndThrough(s: string, i: nat, p: nat)
    requires OccursAt(s, Formerly, i) && i + 9 < p && NoBreak(s, i + 9, p - 1)
    requires SentenceEndFrom(s, i, p).Some?
    ensures exists q :: p <= q && q + 18 < SentenceEndFrom(s, i, p).value && OccursAt(s, FilingsThrough, q)
    decreases |s| + 1 - p
  {
    if OccursAt(s, FilingsThrough, p) && LazyAnyThen(s, p + 17, p + 18, ")").Some? {
      assert p + 18 < SentenceEndFrom(s, i, p).value;
    } else {
      SentenceEndThrough(s, i, p + 1);
    }
  }

  /** A match of the sentence pattern from `i` to `e` is a sentence. */
  lemma SentenceSlice(s: string, i: nat, e: nat)
    requires OccursAt(s, Formerly, i) && i + 10 < e <= |s| && s[e - 1] == ')' && NoBreak(s, i + 9, e)
    requires exists q :: i + 10 <= q && q + 18 < e && OccursAt(s, FilingsThrough, q)
    ensures IsSentence(s[i..e])
  {
    var t := s[i..e];
    assert t[..9] == s[i..i + 9] == Formerly;
    assert NoBreak(t, 0, |t|) by {
      forall k | 0 <= k < |t| ensures t[k] != '\n' {
        if k < 9 {
          assert t[k] == Formerly[k];
        } else {
          assert t[k] == s[i + k];
        }
      }
    }
    var q :| i + 10 <= q && q + 18 < e && OccursAt(s, FilingsThrough, q);
    assert t[q - i..q - i + 17] == FilingsThrough by {
      assert forall j :: q - i <= j < q - i + 17 ==> t[j] == s[i + j];
    }
    assert OccursAt(t, FilingsThrough, q - i);
  }

  /** `former_sentence_re.findall(s[i..])`. */
  function SentencesFrom(s: string, i: nat): (r: seq<string>)
    requires i <= |s|
    ensures forall k :: 0 <= k < |r| ==> IsSentence(r[k])
    decreases |s| - i
  {
    if i == |s| then []
    else if OccursAt(s, Formerly, i) && SentenceEndFrom(s, i, i + 10).Some? then
      var e := SentenceEndFrom(s, i, i + 10).value;
      SentenceEndThrough(s, i, i + 10);
      SentenceSlice(s, i, e);
      [s[i..e]] + SentencesFrom(s, e)
    else SentencesFrom(s, i + 1)
  }

  /** A position that starts no shape contributes no sentence. */
  lemma SentencesFromSkip(s: string, i: nat)
    requires i < |s| && forall p: nat, c: nat :: !SentenceShape(s, i, p, c)
    ensures SentencesFrom(s, i) == SentencesFrom(s, i + 1)
  {
    if OccursAt(s, Formerly, i) {
      SentenceEndFromFound(s, i, i + 10);
    }
  }

  /** The end of the match at `k` is one past the `)` of its first shape. */
  lemma SentenceEndFromFirst(s: string, k: nat, p: nat, c: nat)
    requires FirstSentenceShape(s, k, k + 10, p, c)
    ensures SentenceEndFrom(s, k, k + 10) == Some(c + 1)
  {
    SentenceEndFromFound(s, k, k + 10);
    var q: nat, d: nat :| k + 10 <= q && d + 1 == SentenceEndFrom(s, k, k + 10).value
      && FirstSentenceShape(s, k, k + 10, q, d);
    FirstSentenceShapeUnique(s, k, k + 10, p, c, q, d);
  }

  /** A position that starts a shape contributes the sentence up to the `)` of its first shape. */
  lemma SentencesFromAt(s: string, k: nat, p: nat, c: nat)
    requires FirstSentenceShape(s, k, k + 10, p, c)
    ensures c + 1 <= |s| && SentencesFrom(s, k) == [s[k..c + 1]] + SentencesFrom(s, c + 1)
  {
    SentenceEndFromFirst(s, k, p, c);
  }

  /** `findall` from `i` finds nothing exactly when no position from `i` on starts a shape. */
  lemma {:induction false} SentencesFromNone(s: string, i: nat)
    requires i <= |s|
    ensures SentencesFrom(s, i) == [] <==>
      forall k: nat, p: nat, c: nat :: i <= k ==> !SentenceShape(s, k, p, c)
    decreases |s| - i
  {
    if i < |s| {
      if OccursAt(s, Formerly, i) {
        SentenceEndFromFound(s, i, i + 10);
      }
      if OccursAt(s, Formerly, i) && SentenceEndFrom(s, i, i + 10).Some? {
        var q: nat, c: nat :| i + 10 <= q && c + 1 == SentenceEndFrom(s, i, i + 10).value
          && FirstSentenceShape(s, i, i + 10, q, c);
        assert SentenceShape(s, i, q, c);
      } else {
        SentencesFromNone(s, i + 1);
        assert forall p: nat, c: nat :: !SentenceShape(s, i, p, c);
      }
    }
  }

  /**
   * The leftmost position `k` that starts a shape contributes the first
   * sentence, ending one past the `)` of its first shape; `findall` goes
   * on right after it.
   */
  lemma {:induction false} SentencesFromLeftmost(s: string, i: nat, k: nat, p: nat, c: nat)
    requires i <= k && FirstSentenceShape(s, k, k + 10, p, c)
    requires forall k': nat, p': nat, c': nat :: i <= k' < k ==> !SentenceShape(s, k', p', c')
    ensures c + 1 <= |s| && SentencesFrom(s, i) == [s[k..c + 1]] + SentencesFrom(s, c + 1)
    decreases k - i
  {
    if i < k {
      SentencesFromSkip(s, i);
      SentencesFromLeftmost(s, i + 1, k, p, c);
    } else {
      SentencesFromAt(s, k, p, c);
    }
  }

  /** `former_sentence_re.findall(text)`. */
  function Sentences(text: string): seq<string>
  {
    SentencesFrom(text, 0)
  }

  // ------------------------------------------------ name and date in a sentence
  // formerly:(.*)\(.*(\d{4}-\d{2}-\d{2})

  /** `\d{4}-\d{2}-\d{2}` at `q`. */
  predicate DateAt(s: string, q: nat) {
    && q + 10 <= |s|
    && DigitsAt(s, q, 4) && s[q + 4] == '-' && DigitsAt(s, q + 5, 2) && s[q + 7] == '-'
    && DigitsAt(s, q + 8, 2)
  }

  /** A `YYYY-MM-DD` string. */
  predicate IsDate(d: string) {
    |d| == 10 && DateAt(d, 0)
  }

  /** Greedy `.*` before the date: the largest `q` in `[lo, hi]` with a date at `q`. */
  function LastDate(s: string, lo: nat, hi: nat): (q: Option<nat>)
    requires lo <= hi
    ensures q.Some? ==> lo <= q.value <= hi && DateAt(s, q.value)
    ensures q.Some? ==> forall k :: q.value < k <= hi ==> !DateAt(s, k)
    ensures q.None? ==> forall k :: lo <= k <= hi ==> !DateAt(s, k)
    decreases hi
  {
    if DateAt(s, hi) then Some(hi)
    else if hi == lo then None
    else LastDate(s, lo, hi - 1)
  }

  /** `\(` at `p` and a date at `q`, with `p < q` and both inside the line ending at `e`. */
  predicate ParenDateIn(s: string, p: nat, q: nat, e: nat) {
    p < q <= e <= |s| && s[p] == '(' && DateAt(s, q)
  }

  /**
   * The name-and-date pattern matches at `i`, its `\(` at `p` and its date
   * at `q`: both `.*` stay on the line of the `formerly:` at `i`.
   */
  predicate NameDateMatch(s: string, i: nat, p: nat, q: nat) {
    && OccursAt(s, Formerly, i)
    && i + 9 <= p < q && DateAt(s, q) && s[p] == '(' && NoBreak(s, i + 9, q)
  }

  /**
   * Greedy `(.*)` after "formerly:" at `i`, ending at candidate `p` (tried
   * from the end of the line `e` downwards), where `\(` must follow;
   * returns (p, q) with the date at q: the last `(` that a date follows,
   * and the last date after it.
   */
  function NameParen(s: string, i: nat, e: nat, p: nat): (r: Option<(nat, nat)>)
    requires i + 9 <= p <= e <= |s| && NoBreak(s, i + 9, e)
    ensures r.Some? ==> i + 9 <= r.value.0 && ParenDateIn(s, r.value.0, r.value.1, e)
    ensures r.Some? ==> forall q :: r.value.1 < q <= e ==> !DateAt(s, q)
    ensures r.Some? ==> forall p': nat, q: nat :: r.value.0 < p' <= p ==> !ParenDateIn(s, p', q, e)
    ensures r.None? ==> forall p': nat, q: nat :: i + 9 <= p' <= p ==> !ParenDateIn(s, p', q, e)
    decreases p
  {
    if p < e && s[p] == '(' && LastDate(s, p + 1, e).Some? then
      Some((p, LastDate(s, p + 1, e).value))
    else if p == i + 9 then None
    else NameParen(s, i, e, p - 1)
  }

  /**
   * (p, q) is the match the greedy groups find at `i`: no match at `i` has
   * a later `(`, and none with this `(` has a later date.
   */
  ghost predicate GreatestNameDate(s: string, i: nat, p: nat, q: nat) {
    && NameDateMatch(s, i, p, q)
    && forall p': nat, q': nat :: NameDateMatch(s, i, p', q') ==> p' <= p && (p' == p ==> q' <= q)
  }

  /** The name-and-date pattern at `i`: (p, q) as in `NameParen`, or none when it cannot match there. */
  function NameDateAt(s: string, i: nat): (r: Option<(nat, nat)>)
    requires OccursAt(s, Formerly, i)
    ensures r.Some? ==> GreatestNameDate(s, i, r.value.0, r.value.1)
    ensures r.None? ==> forall p: nat, q: nat :: !NameDateMatch(s, i, p, q)
  {
    var e := LineEnd(s, i + 9);
    var r := NameParen(s, i, e, e);
    assert forall p: nat, q: nat :: NameDateMatch(s, i, p, q) ==> p <= e && ParenDateIn(s, p, q, e);
    r
  }

  /**
   * `name_and_date_re.findall(t[i..])[0]`: the (name, date) groups of the
   * leftmost match, if there is one; none exactly when no position from
   * `i` on starts a match.
   */
  function NameDateFrom(t: string, i: nat): (r: Option<(string, string)>)
    requires i <= |t|
    ensures r.Some? ==> IsDate(r.value.1)
    ensures r.None? ==> forall k: nat, p: nat, q: nat :: i <= k ==> !NameDateMatch(t, k, p, q)
    decreases |t| - i
  {
    if OccursAt(t, Formerly, i) && NameDateAt(t, i).Some? then
      var (p, q) := NameDateAt(t, i).value;
      var d := t[q..q + 10];
      assert forall k :: 0 <= k < 10 ==> d[k] == t[q + k];
      Some((t[i + 9..p], d))
    else if i == |t| then None
    else NameDateFrom(t, i + 1)
  }

  /**
   * The groups found are the name and date groups of the greedy match at
   * the leftmost position from `i` on where the pattern matches.
   */
  lemma {:induction false} NameDateFromMatch(t: string, i: nat)
    requires i <= |t| && NameDateFrom(t, i).Some?
    ensures exists k: nat, p: nat, q: nat :: (i <= k && GreatestNameDate(t, k, p, q)
      && NameDateFrom(t, i).value == (t[k + 9..p], t[q..q + 10])
      && forall k': nat, p': nat, q': nat :: i <= k' < k ==> !NameDateMatch(t, k', p', q'))
    decreases |t| - i
  {
    if OccursAt(t, Formerly, i) && NameDateAt(t, i).Some? {
      var (p, q) := NameDateAt(t, i).value;
      assert GreatestNameDate(t, i, p, q);
    } else {
      NameDateFromMatch(t, i + 1);
      assert forall p': nat, q': nat :: !NameDateMatch(t, i, p', q');
      var k: nat, p: nat, q: nat :| i + 1 <= k && GreatestNameDate(t, k, p, q)
        && NameDateFrom(t, i + 1).value == (t[k + 9..p], t[q..q + 10])
        && forall k': nat, p': nat, q': nat :: i + 1 <= k' < k ==> !NameDateMatch(t, k', p', q');
      assert forall k': nat, p': nat, q': nat :: i <= k' < k ==> !NameDateMatch(t, k', p', q');
    }
  }

  // ------------------------------------------------ metadata fields

  /** The four metadata patterns of the identification block. */
  datatype Field = Sic | Location | IncorporationState | FiscalYearEnd

  /** The literal each pattern starts with. */
  function Label(f: Field): string
  {
    match f
    case Sic => "SIC"
    case Location => "State location:"
    case IncorporationState => "State of Inc.:"
    case FiscalYearEnd => "Fiscal Year End:"
  }

  /** The dictionary key the field is reported under when it is missing. */
  function FieldName(f: Field): string
  {
    match f
    case Sic => "sic"
    case Location => "location"
    case IncorporationState => "incorporation_state"
    case FiscalYearEnd => "fiscal_year_end"
  }

  /** What the groups of a successful match of each pattern look like. */
  predicate GroupsShape(f: Field, g: seq<string>) {
    match f
    case Sic => |g| == 2 && |g[0]| > 0 && AllDigits(g[0])
    case Location =>
      |g| == 1 && |g[0]| > 0 && forall k :: 0 <= k < |g[0]| ==> IsWordChar(g[0][k])
    case IncorporationState =>
      |g| == 1 && |g[0]| > 0 && forall k :: 0 <= k < |g[0]| ==> IsWordChar(g[0][k])
    case FiscalYearEnd => |g| == 1 && |g[0]| == 4 && AllDigits(g[0])
  }

  /**
   * `(\d+?)<\/a> -(.+?)<br` matches at `d` with a digit group of `m`
   * characters and `<br` at `b`.
   */
  predicate SicTailMatch(s: string, d: nat, m: nat, b: nat) {
    && 0 < m && DigitsAt(s, d, m) && OccursAt(s, "</a> -", d + m)
    && d + m + 6 < b && NoBreak(s, d + m + 6, b) && OccursAt(s, "<br", b)
  }

  /**
   * A lazy `\d+?` followed by a non-digit stops only at the end of the
   * digit run: the group can only be the whole run.
   */
  lemma DigitGroupIsRun(s: string, d: nat, m: nat, b: nat)
    requires d <= |s| && SicTailMatch(s, d, m, b)
    ensures m == DigitRun(s, d)
  {
    assert s[d + m..d + m + 6][0] == '<';
    var n := DigitRun(s, d);
    assert forall k :: d <= k < d + n ==> IsDigit(s[k]) by {
      forall k | d <= k < d + n ensures IsDigit(s[k]) {
        assert s[d..d + n][k - d] == s[k];
      }
    }
  }

  /**
   * `(\d+?)<\/a> -(.+?)<br` at `d`. The lazy digit run can only be followed
   * by `<` once it has taken every digit, so the group is the whole run.
   */
  function SicTail(s: string, d: nat): (g: Option<(string, string)>)
    requires d <= |s|
    ensures g.Some? ==> |g.value.0| > 0 && AllDigits(g.value.0)
    ensures g.None? ==> forall m: nat, b: nat :: !SicTailMatch(s, d, m, b)
  {
    var n := DigitRun(s, d);
    if n > 0 && OccursAt(s, "</a> -", d + n) && LazyAnyThen(s, d + n + 6, d + n + 7, "<br").Some? then
      var r := LazyAnyThen(s, d + n + 6, d + n + 7, "<br").value;
      Some((s[d..d + n], s[d + n + 6..r]))
    else
      SicTailNone(s, d);
      None
  }

  /**
   * `g` are the groups of the tail match at `d` that backtracking finds:
   * the whole digit run, and the type up to the first `<br` after it.
   */
  ghost predicate SicTailGroups(s: string, d: nat, g: (string, string)) {
    var m := |g.0|;
    var b := d + m + 6 + |g.1|;
    && SicTailMatch(s, d, m, b) && g.0 == s[d..d + m] && g.1 == s[d + m + 6..b]
    && forall m': nat, b': nat :: SicTailMatch(s, d, m', b') ==> m' == m && b <= b'
  }

  /** A tail found is the match backtracking finds at `d`. */
  lemma SicTailMatched(s: string, d: nat)
    requires d <= |s| && SicTail(s, d).Some?
    ensures SicTailGroups(s, d, SicTail(s, d).value)
  {
    forall m': nat, b': nat | SicTailMatch(s, d, m', b') ensures m' == DigitRun(s, d) {
      DigitGroupIsRun(s, d, m', b');
    }
  }

  /** Where the recogniser gives up, no digit group and `<br` complete the tail. */
  lemma SicTailNone(s: string, d: nat)
    requires d <= |s|
    requires var n := DigitRun(s, d);
      !(n > 0 && OccursAt(s, "</a> -", d + n) && LazyAnyThen(s, d + n + 6, d + n + 7, "<br").Some?)
    ensures forall m: nat, b: nat :: !SicTailMatch(s, d, m, b)
  {
    forall m: nat, b: nat | SicTailMatch(s, d, m, b) ensures false {
      DigitGroupIsRun(s, d, m, b);
    }
  }

  /** `SIC.+?:.+?(\d+?)<\/a> -(.+?)<br` matches with "SIC" at `i`, the colon at `c` and the digit group at `d`. */
  predicate SicMatch(s: string, i: nat, c: nat, d: nat, m: nat, b: nat) {
    && i + 3 < c < |s| && NoBreak(s, i + 3, c) && s[c] == ':'
    && c + 1 < d && NoBreak(s, c + 1, d) && SicTailMatch(s, d, m, b)
  }

  /** The `.+?` after the colon at `c`, with the digit group tried from `d`. */
  function SicAfterColon(s: string, c: nat, d: nat): (g: Option<(string, string)>)
    requires c + 1 < d && NoBreak(s, c + 1, d - 1)
    ensures g.Some? ==> |g.value.0| > 0 && AllDigits(g.value.0)
    ensures g.None? ==> forall d': nat, m: nat, b: nat ::
      d <= d' && NoBreak(s, c + 1, d') ==> !SicTailMatch(s, d', m, b)
    decreases |s| + 1 - d
  {
    if d > |s| || s[d - 1] == '\n' then None
    else match SicTail(s, d)
      case Some(g) => Some(g)
      case None => SicAfterColon(s, c, d + 1)
  }

  /** `g` are the groups of the first tail on the line of the colon at `c`, looking from `d0`. */
  ghost predicate FirstSicTail(s: string, c: nat, d0: nat, d: nat, g: (string, string)) {
    && d0 <= d && NoBreak(s, c + 1, d) && SicTailGroups(s, d, g)
    && forall d': nat, m: nat, b: nat :: d0 <= d' < d ==> !SicTailMatch(s, d', m, b)
  }

  /** A tail found after the colon at `c` is the first from `d` on, on the colon's line. */
  lemma {:induction false} SicAfterColonFound(s: string, c: nat, d: nat)
    requires c + 1 < d && NoBreak(s, c + 1, d - 1)
    ensures var g := SicAfterColon(s, c, d);
      g.Some? ==> exists d': nat :: FirstSicTail(s, c, d, d', g.value)
    decreases |s| + 1 - d
  {
    if d <= |s| && s[d - 1] != '\n' {
      if SicTail(s, d).Some? {
        SicTailMatched(s, d);
        assert FirstSicTail(s, c, d, d, SicTail(s, d).value);
      } else {
        SicAfterColonFound(s, c, d + 1);
        if SicAfterColon(s, c, d).Some? {
          var g := SicAfterColon(s, c, d + 1).value;
          var d': nat :| FirstSicTail(s, c, d + 1, d', g);
          SicTailSkip(s, c, d, d', g);
        }
      }
    }
  }

  /** A position where no tail starts is passed over. */
  lemma SicTailSkip(s: string, c: nat, d: nat, d': nat, g: (string, string))
    requires d <= |s| && SicTail(s, d).None? && FirstSicTail(s, c, d + 1, d', g)
    ensures FirstSicTail(s, c, d, d', g)
  {
  }

  /**
   * The groups `g` come from the SIC match that backtracking finds with
   * the colon tried from `c0`: the colon at `c` is the first that admits
   * a tail, and the digit group at `d` the first after it.
   */
  ghost predicate FirstSic(s: string, i: nat, c0: nat, c: nat, d: nat, g: (string, string)) {
    && c0 <= c && i + 3 < c < |s| && NoBreak(s, i + 3, c) && s[c] == ':'
    && c + 1 < d && NoBreak(s, c + 1, d) && SicTailGroups(s, d, g)
    && forall c': nat, d': nat, m: nat, b: nat ::
      c0 <= c' && SicMatch(s, i, c', d', m, b) ==> c < c' || (c == c' && d <= d')
  }

  /** `SIC.+?:.+?(\d+?)<\/a> -(.+?)<br` with "SIC" at `i` and the colon tried at `c`. */
  function SicColon(s: string, i: nat, c: nat): (g: Option<(string, string)>)
    requires i + 3 < c && NoBreak(s, i + 3, c - 1)
    ensures g.Some? ==> |g.value.0| > 0 && AllDigits(g.value.0)
    ensures g.None? ==> forall c': nat, d: nat, m: nat, b: nat :: c <= c' ==> !SicMatch(s, i, c', d, m, b)
    decreases |s| + 1 - c
  {
    if c >= |s| || s[c - 1] == '\n' then None
    else if s[c] == ':' && SicAfterColon(s, c, c + 2).Some? then SicAfterColon(s, c, c + 2)
    else SicColon(s, i, c + 1)
  }

  /** `g` are the groups of the SIC match that backtracking finds with the colon tried from `c0`. */
  ghost predicate SicGroupsFrom(s: string, i: nat, c0: nat, g: (string, string)) {
    exists c: nat, d: nat :: FirstSic(s, i, c0, c, d, g)
  }

  /** Groups found come from the first SIC match with the colon at or after `c`. */
  lemma {:induction false} SicColonFound(s: string, i: nat, c: nat)
    requires i + 3 < c && NoBreak(s, i + 3, c - 1)
    ensures var g := SicColon(s, i, c);
      g.Some? ==> SicGroupsFrom(s, i, c, g.value)
    decreases |s| + 1 - c
  {
    if c < |s| && s[c - 1] != '\n' {
      if s[c] == ':' && SicAfterColon(s, c, c + 2).Some? {
        SicAfterColonFound(s, c, c + 2);
        var g := SicAfterColon(s, c, c + 2).value;
        var d: nat :| FirstSicTail(s, c, c + 2, d, g);
        SicColonHere(s, i, c, d, g);
      } else {
        SicColonFound(s, i, c + 1);
        if SicColon(s, i, c).Some? {
          var g := SicColon(s, i, c).value;
          var c': nat, d: nat :| FirstSic(s, i, c + 1, c', d, g);
          SicColonSkip(s, i, c, c', d, g);
        }
      }
    }
  }

  /** The colon at `c` that a tail follows is the first colon tried. */
  lemma SicColonHere(s: string, i: nat, c: nat, d: nat, g: (string, string))
    requires i + 3 < c < |s| && NoBreak(s, i + 3, c) && s[c] == ':' && FirstSicTail(s, c, c + 2, d, g)
    ensures FirstSic(s, i, c, c, d, g)
  {
  }

  /** A colon at `c` that no tail follows is passed over. */
  lemma SicColonSkip(s: string, i: nat, c: nat, c': nat, d: nat, g: (string, string))
    requires i + 3 < c && FirstSic(s, i, c + 1, c', d, g)
    requires s[c] != ':' || SicAfterColon(s, c, c + 2).None?
    ensures FirstSic(s, i, c, c', d, g)
  {
    assert forall d': nat, m: nat, b: nat :: !SicMatch(s, i, c, d', m, b);
  }

  /** `closer` starts with a character that is not a word character. */
  predicate ClosesWord(closer: string) {
    |closer| > 0 && !IsWordChar(closer[0])
  }

  /** `(\w+?)closer` matches at `w` with a group of `m` characters. */
  predicate WordMatch(s: string, w: nat, m: nat, closer: string) {
    && 0 < m && w + m <= |s| && (forall k :: w <= k < w + m ==> IsWordChar(s[k]))
    && OccursAt(s, closer, w + m)
  }

  /**
   * `(\w+?)` followed by `closer` at `w`; `closer` starts with `<`, which is
   * no word character, so the group is the whole word run.
   */
  function WordThen(s: string, w: nat, closer: string): (g: Option<string>)
    requires w <= |s| && ClosesWord(closer)
    ensures g.Some? ==> |g.value| > 0 && forall k :: 0 <= k < |g.value| ==> IsWordChar(g.value[k])
    ensures g.Some? ==> WordMatch(s, w, |g.value|, closer) && g.value == s[w..w + |g.value|]
    ensures g.None? ==> forall m: nat :: !WordMatch(s, w, m, closer)
  {
    var n := WordRun(s, w);
    assert forall m: nat :: WordMatch(s, w, m, closer) ==> m == n by {
      forall m: nat | WordMatch(s, w, m, closer) ensures m == n {
        assert s[w + m..w + m + |closer|][0] == closer[0];
      }
    }
    if n > 0 && OccursAt(s, closer, w + n) then Some(s[w..w + n]) else None
  }

  /** `.+?>(\w+?)closer` matches after the label ending at `l`, with `>` at `p`. */
  predicate TagWordMatch(s: string, l: nat, p: nat, m: nat, closer: string) {
    l < p < |s| && NoBreak(s, l, p) && s[p] == '>' && WordMatch(s, p + 1, m, closer)
  }

  /** `.+?>(\w+?)closer` after the label ending at `l`, with `>` tried at `p`. */
  function TagWord(s: string, l: nat, p: nat, closer: string): (g: Option<string>)
    requires l < p && NoBreak(s, l, p - 1) && ClosesWord(closer)
    ensures g.Some? ==> |g.value| > 0 && forall k :: 0 <= k < |g.value| ==> IsWordChar(g.value[k])
    ensures g.None? ==> forall p': nat, m: nat :: p <= p' ==> !TagWordMatch(s, l, p', m, closer)
    decreases |s| + 1 - p
  {
    if p >= |s| || s[p - 1] == '\n' then None
    else if s[p] == '>' && WordThen(s, p + 1, closer).Some? then WordThen(s, p + 1, closer)
    else TagWord(s, l, p + 1, closer)
  }

  /**
   * `w` is the group of the tag-word match that backtracking finds with `>`
   * tried from `p0`: the first `>` on the line that a word and `closer` follow.
   */
  ghost predicate FirstTagWord(s: string, l: nat, p0: nat, p: nat, w: string, closer: string) {
    && p0 <= p && TagWordMatch(s, l, p, |w|, closer) && w == s[p + 1..p + 1 + |w|]
    && forall p': nat, m: nat :: p0 <= p' < p ==> !TagWordMatch(s, l, p', m, closer)
  }

  /** `w` is the group of the tag-word match that backtracking finds with `>` tried from `p0`. */
  ghost predicate TagWordFrom(s: string, l: nat, p0: nat, w: string, closer: string) {
    exists p: nat :: FirstTagWord(s, l, p0, p, w, closer)
  }

  /** A word found comes from the first tag-word match with `>` at or after `p`. */
  lemma {:induction false} TagWordFound(s: string, l: nat, p: nat, closer: string)
    requires l < p && NoBreak(s, l, p - 1) && ClosesWord(closer)
    ensures var g := TagWord(s, l, p, closer);
      g.Some? ==> TagWordFrom(s, l, p, g.value, closer)
    decreases |s| + 1 - p
  {
    if p < |s| && s[p - 1] != '\n' {
      if s[p] == '>' && WordThen(s, p + 1, closer).Some? {
        assert FirstTagWord(s, l, p, p, WordThen(s, p + 1, closer).value, closer);
      } else {
        TagWordFound(s, l, p + 1, closer);
        if TagWord(s, l, p, closer).Some? {
          var w := TagWord(s, l, p + 1, closer).value;
          var p': nat :| FirstTagWord(s, l, p + 1, p', w, closer);
          TagWordSkip(s, l, p, p', w, closer);
        }
      }
    }
  }

  /** A `>` that no word and `closer` follow, or another character, is passed over. */
  lemma TagWordSkip(s: string, l: nat, p: nat, p': nat, w: string, closer: string)
    requires p < |s| && ClosesWord(closer) && FirstTagWord(s, l, p + 1, p', w, closer)
    requires s[p] != '>' || WordThen(s, p + 1, closer).None?
    ensures FirstTagWord(s, l, p, p', w, closer)
  {
  }

  /** `.+?(\d{4})` after the label ending at `l`, with the digits tried at `d`. */
  function FourDigits(s: string, l: nat, d: nat): (g: Option<string>)
    requires l < d && NoBreak(s, l, d - 1)
    ensures g.Some? ==> |g.value| == 4 && AllDigits(g.value)
    ensures g.None? ==> forall d': nat :: d <= d' && NoBreak(s, l, d') ==> !DigitsAt(s, d', 4)
    decreases |s| + 1 - d
  {
    if d > |s| || s[d - 1] == '\n' then None
    else if DigitsAt(s, d, 4) then
      var g := s[d..d + 4];
      assert forall k :: 0 <= k < 4 ==> g[k] == s[d + k];
      Some(g)
    else FourDigits(s, l, d + 1)
  }

  /** `g` is the first four-digit run on the line after the label ending at `l`, looking from `d0`. */
  ghost predicate FirstFourDigits(s: string, l: nat, d0: nat, d: nat, g: string) {
    && d0 <= d && NoBreak(s, l, d) && DigitsAt(s, d, 4) && g == s[d..d + 4]
    && forall d': nat :: d0 <= d' < d ==> !DigitsAt(s, d', 4)
  }

  /** `g` is the first four-digit run on the line after `l`, looking from `d0`. */
  ghost predicate FourDigitsFrom(s: string, l: nat, d0: nat, g: string) {
    exists d: nat :: FirstFourDigits(s, l, d0, d, g)
  }

  /** Digits found are the first four-digit run on the line from `d` on. */
  lemma {:induction false} FourDigitsFound(s: string, l: nat, d: nat)
    requires l < d && NoBreak(s, l, d - 1)
    ensures var g := FourDigits(s, l, d);
      g.Some? ==> FourDigitsFrom(s, l, d, g.value)
    decreases |s| + 1 - d
  {
    if d <= |s| && s[d - 1] != '\n' {
      if DigitsAt(s, d, 4) {
        assert FirstFourDigits(s, l, d, d, FourDigits(s, l, d).value);
      } else {
        FourDigitsFound(s, l, d + 1);
        if FourDigits(s, l, d).Some? {
          var g := FourDigits(s, l, d).value;
          var d': nat :| FirstFourDigits(s, l, d + 1, d', g);
          assert FirstFourDigits(s, l, d, d', g);
        }
      }
    }
  }

  /** The pattern of field `f` matches at `i` (where its label occurs). */
  ghost predicate FieldMatchAt(f: Field, s: string, i: nat) {
    var l := i + |Label(f)|;
    match f
    case Sic => exists c: nat, d: nat, m: nat, b: nat :: SicMatch(s, i, c, d, m, b)
    case Location => exists p: nat, m: nat :: TagWordMatch(s, l, p, m, "</a>")
    case IncorporationState => exists p: nat, m: nat :: TagWordMatch(s, l, p, m, "</strong>")
    case FiscalYearEnd => exists d: nat :: l < d && NoBreak(s, l, d) && DigitsAt(s, d, 4)
  }

  /** The groups of the match of field `f`'s pattern that starts at `i`. */
  function FieldAt(f: Field, s: string, i: nat): (g: Option<seq<string>>)
    requires OccursAt(s, Label(f), i)
    ensures g.Some? ==> GroupsShape(f, g.value)
    ensures g.None? ==> !FieldMatchAt(f, s, i)
  {
    var l := i + |Label(f)|;
    assert ClosesWord("</a>") && ClosesWord("</strong>");
    match f
    case Sic =>
      (match SicColon(s, i, i + 4)
       case Some((code, kind)) => Some([code, kind])
       case None => None)
    case Location =>
      (match TagWord(s, l, l + 1, "</a>")
       case Some(w) => Some([w])
       case None => None)
    case IncorporationState =>
      (match TagWord(s, l, l + 1, "</strong>")
       case Some(w) => Some([w])
       case None => None)
    case FiscalYearEnd =>
      (match FourDigits(s, l, l + 1)
       case Some(d) => Some([d])
       case None => None)
  }

  /** `g` are the groups of the match of field `f`'s pattern at `i` that backtracking finds. */
  ghost predicate FieldGroupsAt(f: Field, s: string, i: nat, g: seq<string>) {
    var l := i + |Label(f)|;
    match f
    case Sic => |g| == 2 && SicGroupsFrom(s, i, i + 4, (g[0], g[1]))
    case Location => |g| == 1 && TagWordFrom(s, l, l + 1, g[0], "</a>")
    case IncorporationState => |g| == 1 && TagWordFrom(s, l, l + 1, g[0], "</strong>")
    case FiscalYearEnd => |g| == 1 && FourDigitsFrom(s, l, l + 1, g[0])
  }

  /** Groups found at `i` are those of the match there that backtracking finds. */
  lemma FieldAtFound(f: Field, s: string, i: nat)
    requires OccursAt(s, Label(f), i)
    ensures FieldAt(f, s, i).Some? ==> FieldMatchAt(f, s, i) && FieldGroupsAt(f, s, i, FieldAt(f, s, i).value)
  {
    var l := i + |Label(f)|;
    assert ClosesWord("</a>") && ClosesWord("</strong>");
    match f
    case Sic =>
      SicColonFound(s, i, i + 4);
      if SicColon(s, i, i + 4).Some? {
        SicGroupsMatch(s, i, i + 4, SicColon(s, i, i + 4).value);
      }
    case Location =>
      TagWordFound(s, l, l + 1, "</a>");
      if TagWord(s, l, l + 1, "</a>").Some? {
        TagWordFromMatch(s, l, l + 1, TagWord(s, l, l + 1, "</a>").value, "</a>");
      }
    case IncorporationState =>
      TagWordFound(s, l, l + 1, "</strong>");
      if TagWord(s, l, l + 1, "</strong>").Some? {
        TagWordFromMatch(s, l, l + 1, TagWord(s, l, l + 1, "</strong>").value, "</strong>");
      }
    case FiscalYearEnd =>
      FourDigitsFound(s, l, l + 1);
  }

  /** Groups of the first SIC match are groups of a SIC match. */
  lemma SicGroupsMatch(s: string, i: nat, c0: nat, g: (string, string))
    requires SicGroupsFrom(s, i, c0, g)
    ensures exists c: nat, d: nat, m: nat, b: nat :: SicMatch(s, i, c, d, m, b)
  {
    var c: nat, d: nat :| FirstSic(s, i, c0, c, d, g);
    assert SicMatch(s, i, c, d, |g.0|, d + |g.0| + 6 + |g.1|);
  }

  /** The group of the first tag-word match is the group of a tag-word match. */
  lemma TagWordFromMatch(s: string, l: nat, p0: nat, w: string, closer: string)
    requires TagWordFrom(s, l, p0, w, closer)
    ensures exists p: nat, m: nat :: TagWordMatch(s, l, p, m, closer)
  {
    var p: nat :| FirstTagWord(s, l, p0, p, w, closer);
    assert TagWordMatch(s, l, p, |w|, closer);
  }

  /** `re.findall(pattern(f), s[i..])[0]`: the groups of the leftmost match, if any. */
  function FieldFrom(f: Field, s: string, i: nat): (g: Option<seq<string>>)
    requires i <= |s|
    ensures g.Some? ==> GroupsShape(f, g.value)
    ensures g.None? ==> forall k: nat :: i <= k && OccursAt(s, Label(f), k) ==> !FieldMatchAt(f, s, k)
    decreases |s| - i
  {
    if OccursAt(s, Label(f), i) && FieldAt(f, s, i).Some? then FieldAt(f, s, i)
    else if i == |s| then None
    else FieldFrom(f, s, i + 1)
  }

  /** Groups found come from the leftmost label from `i` on at which the pattern matches. */
  lemma {:induction false} FieldFromFound(f: Field, s: string, i: nat)
    requires i <= |s|
    ensures var g := FieldFrom(f, s, i);
      g.Some? ==> exists k: nat :: (i <= k && OccursAt(s, Label(f), k) && FieldMatchAt(f, s, k)
        && FieldGroupsAt(f, s, k, g.value)
        && forall k': nat :: i <= k' < k && OccursAt(s, Label(f), k') ==> !FieldMatchAt(f, s, k'))
    decreases |s| - i
  {
    if OccursAt(s, Label(f), i) && FieldAt(f, s, i).Some? {
      FieldAtFound(f, s, i);
    } else if i < |s| {
      FieldFromFound(f, s, i + 1);
      if FieldFrom(f, s, i).Some? {
        var g := FieldFrom(f, s, i).value;
        var k: nat :| i + 1 <= k && OccursAt(s, Label(f), k) && FieldMatchAt(f, s, k)
          && FieldGroupsAt(f, s, k, g)
          && forall k': nat :: i + 1 <= k' < k && OccursAt(s, Label(f), k') ==> !FieldMatchAt(f, s, k');
        assert OccursAt(s, Label(f), i) ==> !FieldMatchAt(f, s, i);
      }
    }
  }

  /** The groups of the first match of field `f`'s pattern in the block markup `s`. */
  function FieldSearch(f: Field, s: string): (g: Option<seq<string>>)
    ensures g.Some? ==> GroupsShape(f, g.value)
    ensures g.None? ==> forall k: nat :: OccursAt(s, Label(f), k) ==> !FieldMatchAt(f, s, k)
  {
    FieldFrom(f, s, 0)
  }

  /** The pattern of field `f` matches somewhere in `s`. */
  ghost predicate FieldMatches(f: Field, s: string) {
    exists k: nat :: OccursAt(s, Label(f), k) && FieldMatchAt(f, s, k)
  }

  /**
   * The search finds groups exactly when the pattern matches somewhere, and
   * they are the groups of the match at the leftmost label where it does.
   */
  lemma FieldSearchFound(f: Field, s: string)
    ensures FieldSearch(f, s).Some? <==> FieldMatches(f, s)
    ensures var g := FieldSearch(f, s);
      g.Some? ==> exists k: nat :: (OccursAt(s, Label(f), k) && FieldGroupsAt(f, s, k, g.value)
        && forall k': nat :: k' < k && OccursAt(s, Label(f), k') ==> !FieldMatchAt(f, s, k'))
  {
    FieldFromFound(f, s, 0);
  }
}
