/**
 * Extraction of the SQL text from a model completion, as done after the
 * chain call in get_sql_query_from_question: a search for the pattern
 *     ```sql\s*(.*?)\s*```
 * with re.DOTALL and re.IGNORECASE, and, when it matches, `group(1).strip()`;
 * otherwise the completion is returned as it is.
 *
 * The pattern is described twice: declaratively (IsMatch, and TriedFirst
 * for the order in which a backtracking matcher tries candidates), and by
 * the scanning functions behind Search, which are proved to find exactly
 * the first candidate that order allows.
 */
module SqlFence {
  import opened Wrappers
  import opened PyText

  /** The pattern letter `s` under re.IGNORECASE also accepts U+017F (long s). */
  predicate MatchesS(c: char) { c == 's' || c == 'S' || c == '\U{017F}' }

  predicate MatchesQ(c: char) { c == 'q' || c == 'Q' }

  predicate MatchesL(c: char) { c == 'l' || c == 'L' }

  /** Three backticks start at position q of s. */
  predicate FenceAt(s: string, q: int) {
    0 <= q && q + 3 <= |s| && s[q] == '`' && s[q + 1] == '`' && s[q + 2] == '`'
  }

  /** The opener ```sql (letters in either case) starts at position p of s. */
  predicate OpenerAt(s: string, p: int) {
    FenceAt(s, p) && p + 6 <= |s| && MatchesS(s[p + 3]) && MatchesQ(s[p + 4]) && MatchesL(s[p + 5])
  }

  /** A string in which no three backticks occur. */
  predicate NoFence(s: string) {
    forall q :: 0 <= q < |s| ==> !FenceAt(s, q)
  }

  /**
   * Positions of one way the pattern can match: the opener at `start`, the
   * first \s* over [start + 6, bodyStart), group 1 over [bodyStart, bodyEnd),
   * the second \s* over [bodyEnd, close) and the closing fence at `close`.
   */
  datatype Span = Span(start: nat, bodyStart: nat, bodyEnd: nat, close: nat)

  predicate IsMatch(s: string, m: Span) {
    OpenerAt(s, m.start) && FenceAt(s, m.close)
    && m.start + 6 <= m.bodyStart <= m.bodyEnd <= m.close
    && AllSpace(s, m.start + 6, m.bodyStart) && AllSpace(s, m.bodyEnd, m.close)
  }

  /**
   * m is tried no later than n by a backtracking matcher: leftmost start
   * first, then the longer first \s* (greedy), then the shorter group
   * (lazy .*?), then the longer second \s* (greedy).
   */
  predicate TriedFirst(m: Span, n: Span) {
    m.start < n.start
    || (m.start == n.start
        && (m.bodyStart > n.bodyStart
            || (m.bodyStart == n.bodyStart
                && (m.bodyEnd < n.bodyEnd
                    || (m.bodyEnd == n.bodyEnd && m.close >= n.close)))))
  }

  /** The match re.search reports: the first candidate that succeeds. */
  ghost predicate IsFirstMatch(s: string, m: Span) {
    IsMatch(s, m) && forall n :: IsMatch(s, n) ==> TriedFirst(m, n)
  }

  /** The first opener at or after i. */
  function FindOpener(s: string, i: nat): (r: Option<nat>)
    ensures r.Some? ==> i <= r.value && OpenerAt(s, r.value)
    ensures r.Some? ==> forall k :: i <= k < r.value ==> !OpenerAt(s, k)
    ensures r.None? ==> forall k :: i <= k ==> !OpenerAt(s, k)
    decreases |s| - i
  {
    if i + 6 > |s| then None
    else if OpenerAt(s, i) then Some(i)
    else FindOpener(s, i + 1)
  }

  /** The first fence at or after i. */
  function FindFence(s: string, i: nat): (r: Option<nat>)
    ensures r.Some? ==> i <= r.value && FenceAt(s, r.value)
    ensures r.Some? ==> forall k :: i <= k < r.value ==> !FenceAt(s, k)
    ensures r.None? ==> forall k :: i <= k ==> !FenceAt(s, k)
    decreases |s| - i
  {
    if i + 3 > |s| then None
    else if FenceAt(s, i) then Some(i)
    else FindFence(s, i + 1)
  }

  /**
   * re.search: the opener is taken at its first occurrence, the first \s*
   * as long as it goes, the closing fence at its first occurrence after
   * that, and the group ends where the whitespace before that fence begins.
   */
  function Search(s: string): (r: Option<Span>)
    ensures r.Some? ==> IsMatch(s, r.value)
  {
    match FindOpener(s, 0)
    case None => None
    case Some(p) =>
      var w := SkipSpace(s, p + 6);
      match FindFence(s, w)
      case None => None
      case Some(q) => Some(Span(p, w, BackOverSpace(s, w, q), q))
  }

  /** Search finds the first match when there is one, and only then. */
  lemma SearchIsFirstMatch(s: string)
    ensures Search(s).Some? ==> IsFirstMatch(s, Search(s).value)
    ensures Search(s).None? ==> forall n :: !IsMatch(s, n)
  {
  }

  /** Two first matches are the same match. */
  lemma FirstMatchUnique(s: string, m: Span, n: Span)
    requires IsFirstMatch(s, m) && IsFirstMatch(s, n)
    ensures m == n
  {
    assert TriedFirst(m, n) && TriedFirst(n, m);
  }

  /**
   * The SQL text taken from a completion: the completion itself when the
   * pattern does not match, otherwise group 1 of the first match, stripped.
   */
  function ExtractSql(completion: string): (r: string)
    ensures (forall n :: !IsMatch(completion, n)) ==> r == completion
    ensures forall m :: IsFirstMatch(completion, m) ==>
              r == Strip(completion[m.bodyStart..m.bodyEnd])
  {
    SearchIsFirstMatch(completion);
    match Search(completion)
    case None => completion
    case Some(m) =>
      assert forall m' :: IsFirstMatch(completion, m') ==> m' == m by {
        forall m' | IsFirstMatch(completion, m') ensures m' == m {
          FirstMatchUnique(completion, m, m');
        }
      }
      Strip(completion[m.bodyStart..m.bodyEnd])
  }

  /**
   * Group 1 of the first match already has no surrounding whitespace and
   * holds no fence, so the strip() after the search changes nothing.
   */
  lemma FirstGroupIsClean(s: string, m: Span)
    requires IsFirstMatch(s, m)
    ensures IsStripped(s[m.bodyStart..m.bodyEnd])
    ensures NoFence(s[m.bodyStart..m.bodyEnd])
  {
    var g := s[m.bodyStart..m.bodyEnd];
    if g != [] {
      // A space at either end could join a \s*, giving an earlier candidate.
      assert g[0] == s[m.bodyStart];
      var first := Span(m.start, m.bodyStart + 1, m.bodyEnd, m.close);
      assert IsSpace(s[m.bodyStart]) ==> IsMatch(s, first);
      assert g[|g| - 1] == s[m.bodyEnd - 1];
      var last := Span(m.start, m.bodyStart, m.bodyEnd - 1, m.close);
      assert IsSpace(s[m.bodyEnd - 1]) ==> IsMatch(s, last);
    }
    forall q | 0 <= q < |g| ensures !FenceAt(g, q) {
      // A fence inside the group would close an earlier candidate.
      var f := m.bodyStart + q;
      var n := Span(m.start, m.bodyStart, f, f);
      assert FenceAt(g, q) ==>
        g[q] == s[f] && g[q + 1] == s[f + 1] && g[q + 2] == s[f + 2] && IsMatch(s, n);
    }
  }

  /**
   * When the pattern matches anywhere, the extracted query is group 1 of
   * the first match as it stands: it has no leading or trailing whitespace
   * and contains no ```.
   */
  lemma ExtractedQueryIsClean(s: string, n: Span)
    requires IsMatch(s, n)
    ensures Search(s).Some? && IsFirstMatch(s, Search(s).value)
    ensures ExtractSql(s) == s[Search(s).value.bodyStart..Search(s).value.bodyEnd]
    ensures IsStripped(ExtractSql(s)) && NoFence(ExtractSql(s))
  {
    SearchIsFirstMatch(s);
    var m := Search(s).value;
    FirstGroupIsClean(s, m);
    StripOfStripped(s[m.bodyStart..m.bodyEnd]);
  }

  /** A completion without any ``` is returned unchanged. */
  lemma UnfencedIsUnchanged(s: string)
    requires NoFence(s)
    ensures ExtractSql(s) == s
  {
    forall n ensures !IsMatch(s, n) {
      assert IsMatch(s, n) ==> FenceAt(s, n.close) && n.close < |s|;
    }
  }

  /** Extracting from an extracted query changes nothing more. */
  lemma ExtractSqlIdempotent(s: string)
    ensures ExtractSql(ExtractSql(s)) == ExtractSql(s)
  {
    SearchIsFirstMatch(s);
    match Search(s)
    case None =>
    case Some(m) =>
      ExtractedQueryIsClean(s, m);
      UnfencedIsUnchanged(ExtractSql(s));
  }
}
