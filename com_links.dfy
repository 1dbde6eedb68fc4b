/** The link substitution of the chatbot's formatter: the regular expression
    `\b(?:[\w-]+\.)+(?:com)\b` with the `i` flag and without the `g` flag,
    used by `String.prototype.replace` with the replacement
    `<a href="http://$&" target="_blank">$&</a>`.

    The matcher is written the way a backtracking engine runs the pattern:
    start positions are tried left to right, and at one start the greedy
    `+` first tries to take one more `[\w-]+\.` segment and only then falls
    back to `com`. Its results are proved to be the leftmost start, and at
    that start the longest match, of the pattern's declarative reading
    `IsComMatch`. */
module ComLinks {
  import opened Wrappers
  import opened JsText

  /** `[\w-]` */
  predicate IsLabelChar(c: char) {
    IsWordChar(c) || c == '-'
  }

  /** `\b` at position `i`: a word character on exactly one side. */
  predicate IsWordBoundary(s: string, i: int)
    requires 0 <= i <= |s|
  {
    (i > 0 && IsWordChar(s[i - 1])) != (i < |s| && IsWordChar(s[i]))
  }

  /** `com` under the `i` flag, at position `i`. */
  predicate IsComAt(s: string, i: int)
    requires 0 <= i
  {
    && i + 3 <= |s|
    && (s[i] == 'c' || s[i] == 'C')
    && (s[i + 1] == 'o' || s[i + 1] == 'O')
    && (s[i + 2] == 'm' || s[i + 2] == 'M')
  }

  /** `s[i..j]` is one or more segments `[\w-]+\.`: it starts with a label
      character, ends with a dot, and has no two dots in a row. */
  predicate IsDottedRun(s: string, i: int, j: int)
    requires 0 <= i <= j <= |s|
  {
    && i < j
    && IsLabelChar(s[i])
    && s[j - 1] == '.'
    && (forall k :: i <= k < j ==> IsLabelChar(s[k]) || s[k] == '.')
    && (forall k :: i <= k < j - 1 && s[k] == '.' ==> s[k + 1] != '.')
  }

  /** The whole pattern matches `s[b..e]`. */
  predicate IsComMatch(s: string, b: int, e: int) {
    && 0 <= b && b + 3 < e <= |s|
    && IsWordBoundary(s, b)
    && IsDottedRun(s, b, e - 3)
    && IsComAt(s, e - 3)
    && IsWordBoundary(s, e)
  }

  /** From position `i` right after a segment's dot, the rest of the
      pattern, `(?:[\w-]+\.)*com\b`, can end at `e`. */
  predicate CanFinishAt(s: string, i: int, e: int) {
    && 0 <= i && i + 3 <= e <= |s|
    && (e - 3 == i || IsDottedRun(s, i, e - 3))
    && IsComAt(s, e - 3)
    && IsWordBoundary(s, e)
  }

  /** `r` is the longest way to finish the pattern from `i`, or none when
      there is no way. */
  ghost predicate IsLongestFinish(s: string, i: int, r: Option<int>) {
    && (r.Some? ==> CanFinishAt(s, i, r.value) && forall e :: CanFinishAt(s, i, e) ==> e <= r.value)
    && (r.None? ==> forall e :: !CanFinishAt(s, i, e))
  }

  /** `r` is the end of the longest match that starts at `b`, or none when no
      match starts there. */
  ghost predicate IsLongestMatchAt(s: string, b: int, r: Option<int>) {
    && (r.Some? ==> IsComMatch(s, b, r.value) && forall e :: IsComMatch(s, b, e) ==> e <= r.value)
    && (r.None? ==> forall e :: !IsComMatch(s, b, e))
  }

  /** `s` holds no match of the pattern at all. */
  ghost predicate NoComToken(s: string) {
    forall b, e :: !IsComMatch(s, b, e)
  }

  /** `s[b..e]` is the match that a search without the `g` flag finds. */
  ghost predicate IsLeftmostLongest(s: string, b: int, e: int) {
    && IsComMatch(s, b, e)
    && (forall p, e' :: p < b ==> !IsComMatch(s, p, e'))
    && (forall e' :: IsComMatch(s, b, e') ==> e' <= e)
  }

  /** End of the run of label characters that starts at `i`. */
  function LabelEnd(s: string, i: int): (j: int)
    requires 0 <= i <= |s|
    ensures i <= j <= |s|
    ensures forall k :: i <= k < j ==> IsLabelChar(s[k])
    ensures j < |s| ==> !IsLabelChar(s[j])
    decreases |s| - i
  {
    if i == |s| || !IsLabelChar(s[i]) then i else LabelEnd(s, i + 1)
  }

  /** A dotted run splits after its first segment: the first segment is the
      label run at `i` followed by a dot, and what follows is empty or again
      a dotted run. */
  lemma DottedRunFirstSegment(s: string, i: int, q: int)
    requires 0 <= i <= q <= |s|
    ensures var j := LabelEnd(s, i);
      IsDottedRun(s, i, q) <==>
        (i < j < |s| && s[j] == '.' && j + 1 <= q
         && (q == j + 1 || IsDottedRun(s, j + 1, q)))
  {
    var j := LabelEnd(s, i);
    if IsDottedRun(s, i, q) {
      assert s[i] != '.';
      assert !IsLabelChar(s[q - 1]);
      assert j < q;
      assert s[j] == '.';
      if q > j + 1 {
        assert s[j + 1] != '.';
      }
    }
  }

  /** The greedy, backtracking run of `(?:[\w-]+\.)*com\b` from `i`: it
      first tries one more segment, and only when everything after that
      fails does it try `com\b` at `i`. It finds the longest way to finish. */
  function GreedyTail(s: string, i: int): (r: Option<int>)
    requires 0 <= i <= |s|
    ensures IsLongestFinish(s, i, r)
    decreases |s| - i
  {
    var j := LabelEnd(s, i);
    var deeper := if i < j < |s| && s[j] == '.' then GreedyTail(s, j + 1) else None;
    TailAlternatives(s, i, deeper);
    if deeper.Some? then deeper
    else if IsComAt(s, i) && IsWordBoundary(s, i + 3) then Some(i + 3)
    else None
  }

  /** The two alternatives of the tail: `com\b` right at `i`, or one more
      segment and then a tail from after its dot. */
  lemma TailAlternatives(s: string, i: int, deeper: Option<int>)
    requires 0 <= i <= |s|
    requires var j := LabelEnd(s, i);
      if i < j < |s| && s[j] == '.' then IsLongestFinish(s, j + 1, deeper) else deeper.None?
    ensures deeper.Some? ==> CanFinishAt(s, i, deeper.value)
    ensures deeper.Some? ==> forall e :: CanFinishAt(s, i, e) ==> e <= deeper.value
    ensures deeper.None? ==> forall e :: CanFinishAt(s, i, e) ==> e == i + 3
  {
    var j := LabelEnd(s, i);
    forall e | CanFinishAt(s, i, e) && e - 3 != i
      ensures i < j < |s| && s[j] == '.' && CanFinishAt(s, j + 1, e)
    {
      DottedRunFirstSegment(s, i, e - 3);
    }
    if deeper.Some? {
      var e := deeper.value;
      DottedRunFirstSegment(s, i, e - 3);
      assert CanFinishAt(s, i, e);
    }
  }

  /** The pattern tried at one start position `b`. */
  function MatchAt(s: string, b: int): (r: Option<int>)
    requires 0 <= b <= |s|
    ensures IsLongestMatchAt(s, b, r)
  {
    var j := LabelEnd(s, b);
    var r := if IsWordBoundary(s, b) && b < j < |s| && s[j] == '.' then GreedyTail(s, j + 1) else None;
    StartAlternatives(s, b, r);
    r
  }

  /** A match at `b` is a word boundary, the label run at `b` and its dot,
      and a tail from after that dot. */
  lemma StartAlternatives(s: string, b: int, r: Option<int>)
    requires 0 <= b <= |s|
    requires var j := LabelEnd(s, b);
      if IsWordBoundary(s, b) && b < j < |s| && s[j] == '.' then IsLongestFinish(s, j + 1, r) else r.None?
    ensures IsLongestMatchAt(s, b, r)
  {
    var j := LabelEnd(s, b);
    forall e | IsComMatch(s, b, e)
      ensures b < j < |s| && s[j] == '.' && CanFinishAt(s, j + 1, e)
    {
      DottedRunFirstSegment(s, b, e - 3);
    }
    if r.Some? {
      DottedRunFirstSegment(s, b, r.value - 3);
    }
  }

  /** The search: start positions from `b` on, left to right; the first start
      with a match gives the match. */
  function FirstMatchFrom(s: string, b: int): (r: Option<(int, int)>)
    requires 0 <= b <= |s|
    ensures r.Some? ==> b <= r.value.0 && IsComMatch(s, r.value.0, r.value.1)
    ensures r.Some? ==> forall p, e :: b <= p < r.value.0 ==> !IsComMatch(s, p, e)
    ensures r.Some? ==> forall e :: IsComMatch(s, r.value.0, e) ==> e <= r.value.1
    ensures r.None? ==> forall p, e :: b <= p ==> !IsComMatch(s, p, e)
    decreases |s| - b
  {
    if b == |s| then None
    else
      match MatchAt(s, b)
      case Some(e) => Some((b, e))
      case None => FirstMatchFrom(s, b + 1)
  }

  /** The match that `replace` rewrites, if any. */
  function FirstMatch(s: string): (r: Option<(int, int)>)
    ensures r.Some? ==> IsLeftmostLongest(s, r.value.0, r.value.1)
    ensures r.None? ==> NoComToken(s)
  {
    FirstMatchFrom(s, 0)
  }

  /** The replacement text for a matched domain `x`. */
  function Anchor(x: string): string {
    "<a href=\"http://" + x + "\" target=\"_blank\">" + x + "</a>"
  }

  /** A string that is one match from end to end is wrapped as a whole. */
  lemma LinkifyWhole(s: string)
    requires IsComMatch(s, 0, |s|)
    ensures Linkify(s) == Anchor(s)
  {
    LinkifyAt(s, 0, |s|);
    assert s[..0] == [] && s[0..|s|] == s && s[|s|..] == [];
  }

  /** Every match ends in `.com`, so text without a dot is never rewritten. */
  lemma NoDotNoLink(s: string)
    requires '.' !in s
    ensures Linkify(s) == s
  {
    forall b, e ensures !IsComMatch(s, b, e) {
    }
    LinkifySpec(s);
  }

  /** There is only one leftmost-longest match. */
  lemma LeftmostLongestUnique(s: string, b: int, e: int, b': int, e': int)
    requires IsLeftmostLongest(s, b, e) && IsLeftmostLongest(s, b', e')
    ensures b == b' && e == e'
  {
  }

  /** `s.replace(regexURL, '<a href="http://$&" target="_blank">$&</a>')`. */
  function Linkify(s: string): string {
    match FirstMatch(s)
    case None => s
    case Some((b, e)) => s[..b] + Anchor(s[b..e]) + s[e..]
  }

  /** The replacement wraps the leftmost-longest `.com` match, and only that
      one, in a link whose target and text are the matched characters;
      everything before and after it stays as it was, and a string without
      a match is returned unchanged. */
  lemma LinkifySpec(s: string)
    ensures NoComToken(s) ==> Linkify(s) == s
    ensures !NoComToken(s) ==>
      exists b, e :: IsLeftmostLongest(s, b, e) && Linkify(s) == s[..b] + Anchor(s[b..e]) + s[e..]
  {
    var r := FirstMatch(s);
    if r.Some? {
      var (b, e) := r.value;
      assert IsLeftmostLongest(s, b, e) && Linkify(s) == s[..b] + Anchor(s[b..e]) + s[e..];
    }
  }

  /** The link goes where the leftmost-longest match is. */
  lemma LinkifyAt(s: string, b: int, e: int)
    requires IsLeftmostLongest(s, b, e)
    ensures Linkify(s) == s[..b] + Anchor(s[b..e]) + s[e..]
  {
    var r := FirstMatch(s);
    assert r.Some?;
    LeftmostLongestUnique(s, b, e, r.value.0, r.value.1);
  }
}

module ComLinksExamples {
  import opened Wrappers
  import opened ComLinks

  /** At one start the greedy `+` takes every segment it can: the two
      domains of `a.com.b.com` are one match. */
  lemma ChainedDomainsAreOneMatch(s: string)
    requires s == "a.com.b.com"
    ensures Linkify(s) == Anchor(s)
  {
    assert s[0] == 'a' && s[1] == '.' && s[2] == 'c' && s[3] == 'o' && s[4] == 'm' && s[5] == '.';
    assert s[6] == 'b' && s[7] == '.' && s[8] == 'c' && s[9] == 'o' && s[10] == 'm' && |s| == 11;
    assert IsDottedRun(s, 0, 8);
    assert IsComMatch(s, 0, 11);
    LinkifyWhole(s);
  }

  /** `com` must end at a word boundary. */
  lemma ComMustEndAWord(s: string)
    requires s == "a.comb"
    ensures Linkify(s) == s
  {
    forall b, e ensures !IsComMatch(s, b, e) {
      if 0 <= b && b + 3 < e <= |s| && IsComAt(s, e - 3) {
        assert e == 5;
      }
    }
    LinkifySpec(s);
  }
}
