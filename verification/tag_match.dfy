/**
 * The regular expression `OPEN(.*?)CLOSE`, for literal tags `OPEN` and
 * `CLOSE`, as `re.search` and `re.sub` apply it: a match starts at the
 * leftmost position where one exists, its capture is the shortest one
 * followed by the closing tag, `.` does not match a newline, and removal
 * scans left to right over non-overlapping matches.
 */
module TagMatch {
  import opened Wrappers

  /** The literal opening and closing tags of the pattern. */
  datatype Tags = Tags(open: string, close: string)

  /** `t` occurs in `s` starting at position `i`. */
  predicate TagAt(s: string, i: nat, t: string) {
    i + |t| <= |s| && s[i..i + |t|] == t
  }

  /**
   * The lazy `(.*?)CLOSE` from position `i`: the first `j` at which the
   * closing tag starts, provided no newline lies in between.
   */
  function FindClose(p: Tags, s: string, i: nat): (r: Option<nat>)
    requires i <= |s|
    ensures r.Some? ==> i <= r.value && r.value + |p.close| <= |s|
    decreases |s| - i
  {
    if TagAt(s, i, p.close) then Some(i)
    else if i == |s| || s[i] == '\n' then None
    else FindClose(p, s, i + 1)
  }

  /**
   * The capture found is the shortest one: it holds no newline and no
   * earlier closing tag; and none is found only when every closing tag
   * ahead lies past a newline.
   */
  lemma {:induction false} FindCloseFirst(p: Tags, s: string, i: nat)
    requires i <= |s|
    ensures var r := FindClose(p, s, i);
      && (r.Some? ==>
        && TagAt(s, r.value, p.close) && '\n' !in s[i..r.value]
        && forall k :: i <= k < r.value ==> !TagAt(s, k, p.close))
      && (r.None? ==> forall k :: i <= k <= |s| && TagAt(s, k, p.close) ==> '\n' in s[i..k])
    decreases |s| - i
  {
    if !TagAt(s, i, p.close) && i < |s| && s[i] != '\n' {
      FindCloseOn(p, s, i);
      FindCloseFirst(p, s, i + 1);
      var r := FindClose(p, s, i);
      if r.Some? {
        NewlineInSlice(s, i, r.value);
      } else {
        forall k | i <= k <= |s| && TagAt(s, k, p.close)
          ensures '\n' in s[i..k]
        {
          NewlineInSlice(s, i, k);
        }
      }
    }
  }

  lemma FindCloseOn(p: Tags, s: string, i: nat)
    requires i < |s| && !TagAt(s, i, p.close) && s[i] != '\n'
    ensures FindClose(p, s, i) == FindClose(p, s, i + 1)
  {
  }

  /** A slice holds a newline when its first character or the rest does. */
  lemma NewlineInSlice(s: string, i: nat, k: nat)
    requires i <= k <= |s|
    ensures i < k ==> ('\n' in s[i..k] <==> s[i] == '\n' || '\n' in s[i + 1..k])
  {
    if i < k {
      assert s[i..k] == [s[i]] + s[i + 1..k];
    }
  }

  /** A whole match starting at `i`: the end of its capture, if any. */
  function MatchAt(p: Tags, s: string, i: nat): (r: Option<nat>)
    requires i <= |s|
    ensures r.Some? ==> TagAt(s, i, p.open) && i + |p.open| <= r.value && r.value + |p.close| <= |s|
  {
    if TagAt(s, i, p.open) then FindClose(p, s, i + |p.open|) else None
  }

  /** A match is the opening tag, a newline-free capture without a closing tag inside, and the closing tag. */
  lemma MatchAtMeaning(p: Tags, s: string, i: nat)
    requires i <= |s|
    ensures var r := MatchAt(p, s, i);
      && (r.Some? ==>
        && TagAt(s, r.value, p.close)
        && '\n' !in s[i + |p.open|..r.value]
        && forall k :: i + |p.open| <= k < r.value ==> !TagAt(s, k, p.close))
      && (r.None? && TagAt(s, i, p.open) ==>
        forall k :: i + |p.open| <= k <= |s| && TagAt(s, k, p.close) ==> '\n' in s[i + |p.open|..k])
  {
    if TagAt(s, i, p.open) {
      FindCloseFirst(p, s, i + |p.open|);
    }
  }

  /** `re.search` from position `i`: the leftmost match and its capture end. */
  function Search(p: Tags, s: string, i: nat): (r: Option<(nat, nat)>)
    requires i <= |s|
    ensures r.Some? ==> i <= r.value.0 <= |s| && MatchAt(p, s, r.value.0) == Some(r.value.1)
    decreases |s| - i
  {
    if MatchAt(p, s, i).Some? then Some((i, MatchAt(p, s, i).value))
    else if i == |s| then None
    else Search(p, s, i + 1)
  }

  /** The match found is the leftmost one, and none is found only when no position starts a match. */
  lemma {:induction false} SearchLeftmost(p: Tags, s: string, i: nat)
    requires i <= |s|
    ensures Search(p, s, i).Some? ==> forall m :: i <= m < Search(p, s, i).value.0 ==> MatchAt(p, s, m).None?
    ensures Search(p, s, i).None? ==> forall m :: i <= m <= |s| ==> MatchAt(p, s, m).None?
    decreases |s| - i
  {
    if MatchAt(p, s, i).Some? {
      SearchHere(p, s, i);
    } else if i < |s| {
      SearchOn(p, s, i);
      SearchLeftmost(p, s, i + 1);
    } else {
      SearchEnds(p, s, i);
    }
  }

  /** At the end of the text, with no match there, nothing is found. */
  lemma SearchEnds(p: Tags, s: string, i: nat)
    requires i <= |s| && MatchAt(p, s, i).None?
    ensures i == |s| ==> Search(p, s, i).None?
  {
  }

  /**
   * `re.sub(pattern, '', s[i..])`: every match, scanning left to right,
   * removed. A non-empty opening tag makes every match advance the scan.
   */
  function Sub(p: Tags, s: string, i: nat): (r: string)
    requires p.open != []
    requires i <= |s|
    ensures |r| <= |s| - i
    decreases |s| - i
  {
    if i == |s| then []
    else
      match MatchAt(p, s, i)
      case Some(j) => Sub(p, s, j + |p.close|)
      case None => [s[i]] + Sub(p, s, i + 1)
  }

  /** Without any match the removal changes nothing. */
  lemma {:induction false} SubNoMatch(p: Tags, s: string, i: nat)
    requires p.open != []
    requires i <= |s|
    requires Search(p, s, i).None?
    ensures Sub(p, s, i) == s[i..]
    decreases |s| - i
  {
    if i < |s| {
      SubNoMatch(p, s, i + 1);
      assert s[i..] == [s[i]] + s[i + 1..];
    }
  }

  /** The text before the leftmost match is kept, the match is dropped, and the rest is scanned on. */
  lemma {:induction false} SubFirst(p: Tags, s: string, i: nat, k: nat, j: nat)
    requires p.open != []
    requires i <= |s| && Search(p, s, i) == Some((k, j))
    ensures i <= k <= |s| && Sub(p, s, i) == s[i..k] + Sub(p, s, j + |p.close|)
    decreases |s| - i
  {
    if MatchAt(p, s, i).Some? {
      SearchHere(p, s, i);
      SubSkips(p, s, i, j);
    } else {
      assert i < |s| by { SearchEnds(p, s, i); }
      SearchOn(p, s, i);
      SubKeeps(p, s, i);
      SubFirst(p, s, i + 1, k, j);
      ConsSlice(s, i, k, Sub(p, s, j + |p.close|));
    }
  }

  lemma SearchHere(p: Tags, s: string, i: nat)
    requires i <= |s| && MatchAt(p, s, i).Some?
    ensures Search(p, s, i) == Some((i, MatchAt(p, s, i).value))
  {
  }

  lemma SearchOn(p: Tags, s: string, i: nat)
    requires i < |s| && MatchAt(p, s, i).None?
    ensures Search(p, s, i) == Search(p, s, i + 1)
  {
  }

  lemma ConsSlice(s: string, i: nat, k: nat, t: string)
    requires i < k <= |s|
    ensures s[i..k] + t == [s[i]] + (s[i + 1..k] + t)
  {
    assert s[i..k] == [s[i]] + s[i + 1..k];
  }

  /** Where a match starts, removal drops it and moves on past the closing tag. */
  lemma SubSkips(p: Tags, s: string, i: nat, j: nat)
    requires p.open != []
    requires i <= |s| && MatchAt(p, s, i) == Some(j)
    ensures Sub(p, s, i) == s[i..i] + Sub(p, s, j + |p.close|)
  {
    assert s[i..i] == [];
  }

  /** Where no match starts, removal keeps the character and moves on. */
  lemma SubKeeps(p: Tags, s: string, i: nat)
    requires p.open != []
    requires i < |s| && MatchAt(p, s, i).None?
    ensures Sub(p, s, i) == [s[i]] + Sub(p, s, i + 1)
  {
  }

  /**
   * A successful search splits the text as `pre + open + captured + close +
   * post`: no match starts in `pre`, `captured` holds no newline and no
   * closing tag, and removal keeps `pre` and carries on after the match.
   */
  lemma SearchFound(p: Tags, s: string, k: nat, j: nat)
    requires p.open != []
    requires Search(p, s, 0) == Some((k, j))
    ensures k + |p.open| <= j && j + |p.close| <= |s|
    ensures s == s[..k] + p.open + s[k + |p.open|..j] + p.close + s[j + |p.close|..]
    ensures forall m :: 0 <= m < k ==> MatchAt(p, s, m).None?
    ensures '\n' !in s[k + |p.open|..j]
    ensures forall m :: k + |p.open| <= m < j ==> !TagAt(s, m, p.close)
    ensures Sub(p, s, 0) == s[..k] + Sub(p, s, j + |p.close|)
  {
    SearchLeftmost(p, s, 0);
    SubFirst(p, s, 0, k, j);
    MatchAtMeaning(p, s, k);
    MatchSplits(p, s, k, j);
    assert s[0..k] == s[..k];
  }

  /** Removal keeps the text before the match found and carries on after it. */
  lemma SubAfterSearch(p: Tags, s: string, k: nat, j: nat)
    requires p.open != []
    requires Search(p, s, 0) == Some((k, j))
    ensures k + |p.open| <= j && j + |p.close| <= |s|
    ensures Sub(p, s, 0) == s[..k] + Sub(p, s, j + |p.close|)
  {
    SubFirst(p, s, 0, k, j);
    assert s[0..k] == s[..k];
  }

  lemma MatchSplits(p: Tags, s: string, k: nat, j: nat)
    requires k <= |s| && MatchAt(p, s, k) == Some(j)
    ensures s == s[..k] + p.open + s[k + |p.open|..j] + p.close + s[j + |p.close|..]
  {
    MatchAtMeaning(p, s, k);
    Pieces(s, k, k + |p.open|, j, j + |p.close|);
  }

  lemma Pieces(s: string, k: nat, a: nat, j: nat, b: nat)
    requires k <= a <= j <= b <= |s|
    ensures s == s[..k] + s[k..a] + s[a..j] + s[j..b] + s[b..]
  {
    SliceSplit(s, j, b);
    SliceSplit(s, a, j);
    SliceSplit(s, k, a);
    assert s == s[..k] + s[k..];
  }

  /** The suffix from `a` is the slice up to `b` followed by the suffix from `b`. */
  lemma SliceSplit(s: string, a: nat, b: nat)
    requires a <= b <= |s|
    ensures s[a..] == s[a..b] + s[b..]
  {
  }
}
