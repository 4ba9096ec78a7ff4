/**
 * The `user=` field of a credential (`initData`): the text after the first
 * `user=`, cut at the next `user=` (JavaScript `split('user=')[1]`) and then
 * at the first `&` (`split('&')[0]`). Decoding the URL escapes and parsing the
 * JSON that the field holds is not part of this model.
 */
module Credential {
  import opened PipTypes

  const UserKey: string := "user="

  predicate OccursAt(s: string, pat: string, k: nat)
  {
    k + |pat| <= |s| && s[k..k + |pat|] == pat
  }

  /** The first position at or after `from` where `pat` occurs in `s`. */
  function FindFrom(s: string, pat: string, from: nat): (r: Option<nat>)
    requires from <= |s|
    ensures r.Some? ==> from <= r.value && OccursAt(s, pat, r.value)
    ensures r.Some? ==> forall j :: from <= j < r.value ==> !OccursAt(s, pat, j)
    ensures r.None? ==> forall j :: from <= j <= |s| ==> !OccursAt(s, pat, j)
    decreases |s| - from
  {
    if OccursAt(s, pat, from) then Some(from)
    else if from == |s| then None
    else FindFrom(s, pat, from + 1)
  }

  /** `s.split(sep)[0]` for a one-character separator: the text before the first `sep`. */
  function BeforeChar(s: string, sep: char): (r: string)
    ensures sep !in r
    ensures |r| <= |s| && r == s[..|r|]
    ensures |r| < |s| ==> s[|r|] == sep
  {
    if |s| == 0 then ""
    else if s[0] == sep then ""
    else [s[0]] + BeforeChar(s[1..], sep)
  }

  /**
   * `initData.split('user=')[1].split('&')[0]`; `None` where the source's
   * `split('user=')[1]` is `undefined` and the next call throws.
   */
  function UserSegment(initData: string): (r: Option<string>)
    ensures r.None? <==> forall k :: 0 <= k <= |initData| ==> !OccursAt(initData, UserKey, k)
    ensures r.Some? ==> '&' !in r.value
  {
    match FindFrom(initData, UserKey, 0)
    case None => None
    case Some(i) =>
      var start := i + |UserKey|;
      var piece := match FindFrom(initData, UserKey, start)
                   case None => initData[start..]
                   case Some(j) => initData[start..j];
      Some(BeforeChar(piece, '&'))
  }

  /**
   * `user=` never overlaps itself: an occurrence of it that starts inside
   * `prefix` ends inside `prefix` when `prefix + "user="` is the text.
   */
  lemma NoOccurrenceBeforeKey(prefix: string, tail: string, k: nat)
    requires forall j :: 0 <= j <= |prefix| ==> !OccursAt(prefix, UserKey, j)
    requires k < |prefix|
    ensures !OccursAt(prefix + UserKey + tail, UserKey, k)
  {
    var s := prefix + UserKey + tail;
    if k + |UserKey| <= |prefix| {
      assert s[k..k + |UserKey|] == prefix[k..k + |UserKey|];
      assert !OccursAt(prefix, UserKey, k);
    } else if k + |UserKey| <= |s| {
      // the key at |prefix| starts with `u`, which the key has nowhere else
      var d := |prefix| - k;
      assert s[|prefix|] == 'u';
      assert s[k..k + |UserKey|][d] == s[|prefix|];
      assert UserKey[d] != 'u';
    }
  }

  /** In `prefix + "user=" + v + "&" + rest`, no key starts inside `v` nor at its `&`. */
  lemma NoKeyInField(prefix: string, v: string, rest: string, k: nat)
    requires forall j :: 0 <= j <= |v| ==> !OccursAt(v, UserKey, j)
    requires '&' !in v
    requires |prefix| + |UserKey| <= k <= |prefix| + |UserKey| + |v|
    ensures !OccursAt(prefix + UserKey + v + "&" + rest, UserKey, k)
  {
    var s := prefix + UserKey + v + "&" + rest;
    var start := |prefix| + |UserKey|;
    var amp := start + |v|;
    assert s[amp] == '&';
    if k + |UserKey| <= amp {
      assert s[k..k + |UserKey|] == v[k - start..k - start + |UserKey|];
      assert !OccursAt(v, UserKey, k - start);
    } else if k + |UserKey| <= |s| {
      // the `&` would fall inside the key, which has none
      assert s[k..k + |UserKey|][amp - k] == '&';
      assert '&' !in UserKey;
    }
  }

  /** The first key of `prefix + "user=" + v + "&" + rest` sits right after `prefix`. */
  lemma FirstKeyAfterPrefix(prefix: string, v: string, rest: string)
    requires forall j :: 0 <= j <= |prefix| ==> !OccursAt(prefix, UserKey, j)
    ensures FindFrom(prefix + UserKey + v + "&" + rest, UserKey, 0) == Some(|prefix|)
  {
    var s := prefix + UserKey + v + "&" + rest;
    assert s == prefix + UserKey + (v + "&" + rest);
    forall k | 0 <= k < |prefix| ensures !OccursAt(s, UserKey, k) {
      NoOccurrenceBeforeKey(prefix, v + "&" + rest, k);
    }
    assert s[|prefix|..|prefix| + |UserKey|] == UserKey;
    FindFromFirst(s, UserKey, 0, |prefix|);
  }

  /**
   * Round trip: a credential built as `prefix` + `user=` + `v` + `&` + `rest`,
   * where `prefix` holds no `user=` and `v` holds neither `user=` nor `&`,
   * yields `v` as its user field.
   */
  lemma UserSegmentRoundTrip(prefix: string, v: string, rest: string)
    requires forall j :: 0 <= j <= |prefix| ==> !OccursAt(prefix, UserKey, j)
    requires forall j :: 0 <= j <= |v| ==> !OccursAt(v, UserKey, j)
    requires '&' !in v
    ensures UserSegment(prefix + UserKey + v + "&" + rest) == Some(v)
  {
    var s := prefix + UserKey + v + "&" + rest;
    var start := |prefix| + |UserKey|;
    FirstKeyAfterPrefix(prefix, v, rest);
    forall k | start <= k <= start + |v| ensures !OccursAt(s, UserKey, k) {
      NoKeyInField(prefix, v, rest, k);
    }
    var piece := match FindFrom(s, UserKey, start)
                 case None => s[start..]
                 case Some(j) => s[start..j];
    assert |piece| > |v| && piece[..|v|] == v && piece[|v|] == '&' by {
      match FindFrom(s, UserKey, start)
      case None =>
        assert s[start..] == v + "&" + rest;
      case Some(j) =>
        assert s[start..j][..|v|] == s[start..start + |v|] == v;
        assert s[start..j][|v|] == s[start + |v|] == '&';
    }
    BeforeCharPrefix(piece, |v|, '&');
  }

  /** `FindFrom` returns the first occurrence. */
  lemma FindFromFirst(s: string, pat: string, from: nat, i: nat)
    requires from <= i && OccursAt(s, pat, i)
    requires forall j :: from <= j < i ==> !OccursAt(s, pat, j)
    ensures FindFrom(s, pat, from) == Some(i)
  {
  }

  /** Cutting at a separator that sits at position `n`, and nowhere before, keeps exactly the first `n` characters. */
  lemma {:induction false} BeforeCharPrefix(s: string, n: nat, sep: char)
    requires n < |s| && s[n] == sep && sep !in s[..n]
    ensures BeforeChar(s, sep) == s[..n]
  {
    if n > 0 {
      assert s[1..][..n - 1] == s[..n][1..];
      BeforeCharPrefix(s[1..], n - 1, sep);
    }
  }
}
