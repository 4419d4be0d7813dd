/** `extractVideoId` of src/main.ts: the video id in a pasted link.

    Two regular expressions are tried in order, each unanchored:
      `(?:youtube\.com\/watch\?v=|youtu\.be\/|youtube\.com\/embed\/)([^&\n?#]+)`
      `youtube\.com\/shorts\/([^&\n?#]+)`
    A pattern matches at the leftmost position where one of its literal
    prefixes (tried in order) is followed by at least one id character; the
    greedy class then captures the maximal run of id characters. */
module VideoId {
  import opened Wrappers

  /** `[^&\n?#]`. */
  predicate IsIdChar(c: char) {
    c != '&' && c != '\n' && c != '?' && c != '#'
  }

  /** Length of the maximal run of id characters starting at `from`. */
  function IdRun(s: string, from: nat): (n: nat)
    requires from <= |s|
    ensures from + n <= |s|
    ensures forall k :: from <= k < from + n ==> IsIdChar(s[k])
    ensures from + n == |s| || !IsIdChar(s[from + n])
    decreases |s| - from
  {
    if from < |s| && IsIdChar(s[from]) then 1 + IdRun(s, from + 1) else 0
  }

  /** The literal `lit` occurs at `i` and is followed by an id character
      (the capture `([^&\n?#]+)` needs at least one). */
  predicate Matches(s: string, i: int, lit: string) {
    0 <= i && i + |lit| < |s| && s[i..i + |lit|] == lit && IsIdChar(s[i + |lit|])
  }

  /** The watch, short-link and embed prefixes, in the order written. */
  const WatchPrefixes: seq<string> := ["youtube.com/watch?v=", "youtu.be/", "youtube.com/embed/"]
  /** The shorts prefix. */
  const ShortsPrefixes: seq<string> := ["youtube.com/shorts/"]

  /** The first alternative, from the `k`-th on, that matches at `i`. */
  function FirstAlt(s: string, i: nat, alts: seq<string>, k: nat): (r: Option<nat>)
    requires k <= |alts|
    ensures r.Some? ==> k <= r.value < |alts| && Matches(s, i, alts[r.value])
    ensures r.Some? ==> forall j :: k <= j < r.value ==> !Matches(s, i, alts[j])
    ensures r.None? ==> forall j :: k <= j < |alts| ==> !Matches(s, i, alts[j])
    decreases |alts| - k
  {
    if k == |alts| then None
    else if Matches(s, i, alts[k]) then Some(k)
    else FirstAlt(s, i, alts, k + 1)
  }

  /** No alternative matches at any position from `lo` up to, not
      including, `hi`. */
  predicate NoMatchIn(s: string, lo: nat, hi: nat, alts: seq<string>) {
    forall i, j :: lo <= i < hi && 0 <= j < |alts| ==> !Matches(s, i, alts[j])
  }

  /** The leftmost position at or after `from` where some alternative
      matches, with the first alternative that matches there. */
  function Leftmost(s: string, from: nat, alts: seq<string>): (r: Option<(nat, nat)>)
    requires from <= |s|
    ensures r.Some? ==> from <= r.value.0 <= |s| && r.value.1 < |alts|
                        && Matches(s, r.value.0, alts[r.value.1])
                        && (forall j :: 0 <= j < r.value.1 ==> !Matches(s, r.value.0, alts[j]))
    ensures r.Some? ==> NoMatchIn(s, from, r.value.0, alts)
    ensures r.None? ==> NoMatchIn(s, from, |s| + 1, alts)
    decreases |s| - from
  {
    match FirstAlt(s, from, alts, 0)
    case Some(k) => Some((from, k))
    case None =>
      if from == |s| then None
      else
        var r := Leftmost(s, from + 1, alts);
        NoMatchExtend(s, from, if r.Some? then r.value.0 else |s| + 1, alts);
        r
  }

  /** A position where nothing matches extends a match-free range down. */
  lemma NoMatchExtend(s: string, from: nat, hi: nat, alts: seq<string>)
    requires from < hi
    requires forall j :: 0 <= j < |alts| ==> !Matches(s, from, alts[j])
    requires NoMatchIn(s, from + 1, hi, alts)
    ensures NoMatchIn(s, from, hi, alts)
  {
  }

  /** Some alternative matches somewhere in `s`. */
  predicate AnyMatch(s: string, alts: seq<string>) {
    exists i, j :: 0 <= i <= |s| && 0 <= j < |alts| && Matches(s, i, alts[j])
  }

  /** The greedy capture `([^&\n?#]+)` from `start` on. */
  function IdFrom(s: string, start: nat): (id: string)
    requires start <= |s|
    ensures |id| == IdRun(s, start)
    ensures forall k :: 0 <= k < |id| ==> IsIdChar(id[k])
    ensures forall k :: 0 <= k < |id| ==> id[k] == s[start + k]
  {
    var n := IdRun(s, start);
    var id := s[start..start + n];
    assert forall k :: 0 <= k < n ==> id[k] == s[start + k];
    id
  }

  /** Leftmost finds a match exactly when there is one. */
  lemma LeftmostIffAnyMatch(s: string, alts: seq<string>)
    ensures Leftmost(s, 0, alts).Some? <==> AnyMatch(s, alts)
  {
    var m := Leftmost(s, 0, alts);
    if m.Some? {
      assert Matches(s, m.value.0, alts[m.value.1]);
    }
  }

  /** `s.match(pattern)[1]`: the captured id of the leftmost match. */
  function Capture(s: string, alts: seq<string>): (r: Option<string>)
    ensures r.None? <==> Leftmost(s, 0, alts).None?
    ensures r.Some? ==> r.value != [] && forall k :: 0 <= k < |r.value| ==> IsIdChar(r.value[k])
    ensures r.Some? ==>
              Leftmost(s, 0, alts).Some?
              && r.value == IdFrom(s, Leftmost(s, 0, alts).value.0 + |alts[Leftmost(s, 0, alts).value.1]|)
  {
    var m := Leftmost(s, 0, alts);
    if m.None? then None
    else
      var start := m.value.0 + |alts[m.value.1]|;
      assert IdRun(s, start) > 0;
      Some(IdFrom(s, start))
  }

  /** `extractVideoId`: the first pattern's capture if it matches anywhere,
      else the shorts pattern's, else nothing. */
  function ExtractVideoId(url: string): (r: Option<string>)
    ensures r.None? <==> !AnyMatch(url, WatchPrefixes) && !AnyMatch(url, ShortsPrefixes)
    ensures AnyMatch(url, WatchPrefixes) ==> r == Capture(url, WatchPrefixes)
    ensures !AnyMatch(url, WatchPrefixes) ==> r == Capture(url, ShortsPrefixes)
    ensures r.Some? ==> r.value != [] && forall k :: 0 <= k < |r.value| ==> IsIdChar(r.value[k])
  {
    LeftmostIffAnyMatch(url, WatchPrefixes);
    LeftmostIffAnyMatch(url, ShortsPrefixes);
    match Capture(url, WatchPrefixes)
    case Some(id) => Some(id)
    case None => Capture(url, ShortsPrefixes)
  }

  // ---------------------------------------------------------------------
  // Links as people paste them.

  /** Every prefix of either pattern starts with 'y', so no match can start
      in text that holds no 'y'. */
  lemma NoMatchWithoutY(s: string, i: nat, alts: seq<string>, j: nat)
    requires alts == WatchPrefixes || alts == ShortsPrefixes
    requires j < |alts| && i < |s| && s[i] != 'y'
    ensures !Matches(s, i, alts[j])
  {
    assert alts[j][0] == 'y';
    if i + |alts[j]| <= |s| {
      assert s[i..i + |alts[j]|][0] == s[i];
    }
  }

  /** A run of id characters ending at the end of the text or at another
      character is exactly the run IdRun measures. */
  lemma {:induction false} IdRunExact(s: string, from: nat, n: nat)
    requires from + n <= |s|
    requires forall k :: from <= k < from + n ==> IsIdChar(s[k])
    requires from + n == |s| || !IsIdChar(s[from + n])
    ensures IdRun(s, from) == n
    decreases n
  {
    if n > 0 {
      IdRunExact(s, from + 1, n - 1);
    }
  }

  /** Characters before `n` other than 'y' start no match. */
  lemma NoMatchInWithoutY(s: string, n: nat, alts: seq<string>)
    requires alts == WatchPrefixes || alts == ShortsPrefixes
    requires n <= |s| && forall i :: 0 <= i < n ==> s[i] != 'y'
    ensures NoMatchIn(s, 0, n, alts)
  {
    forall i, j | 0 <= i < n && 0 <= j < |alts| ensures !Matches(s, i, alts[j]) {
      NoMatchWithoutY(s, i, alts, j);
    }
  }

  /** The id characters after a literal form the run IdRun measures. */
  lemma IdAfter(pre: string, lit: string, id: string, rest: string)
    requires forall c :: 0 <= c < |id| ==> IsIdChar(id[c])
    requires rest == [] || !IsIdChar(rest[0])
    ensures var s := pre + lit + id + rest;
            var start := |pre| + |lit|;
            && IdRun(s, start) == |id|
            && s[start..start + |id|] == id
            && s[|pre|..start] == lit
  {
    var s := pre + lit + id + rest;
    var start := |pre| + |lit|;
    assert forall c :: 0 <= c < |id| ==> s[start + c] == id[c];
    if rest != [] { assert s[start + |id|] == rest[0]; }
    IdRunExact(s, start, |id|);
    assert s[start..start + |id|] == id;
    assert s[|pre|..start] == lit;
  }

  /** With nothing matching before `n` and a match at `n`, the leftmost
      match is at `n`. */
  lemma LeftmostAt(s: string, n: nat, alts: seq<string>, k: nat)
    requires k < |alts| && Matches(s, n, alts[k]) && NoMatchIn(s, 0, n, alts)
    ensures Leftmost(s, 0, alts).Some? && Leftmost(s, 0, alts).value.0 == n
  {
  }

  /** The text after the first match of a prefix: when no alternative
      matches earlier, the id is the run of id characters after it. */
  lemma FirstMatchAt(pre: string, alts: seq<string>, k: nat, id: string, rest: string)
    requires alts == WatchPrefixes || alts == ShortsPrefixes
    requires k < |alts| && NoMatchIn(pre + alts[k] + id + rest, 0, |pre|, alts)
    requires id != [] && forall c :: 0 <= c < |id| ==> IsIdChar(id[c])
    requires rest == [] || !IsIdChar(rest[0])
    ensures Capture(pre + alts[k] + id + rest, alts) == Some(id)
  {
    var s := pre + alts[k] + id + rest;
    assert IdFrom(s, |pre| + |alts[k]|) == id && Matches(s, |pre|, alts[k]) by {
      IdAfter(pre, alts[k], id, rest);
    }
    LeftmostIs(s, |pre|, alts, k);
  }

  /** The leftmost match is at `n` with the `k`-th prefix when that prefix
      matches there and nothing matches earlier. */
  lemma LeftmostIs(s: string, n: nat, alts: seq<string>, k: nat)
    requires alts == WatchPrefixes || alts == ShortsPrefixes
    requires k < |alts| && Matches(s, n, alts[k]) && NoMatchIn(s, 0, n, alts)
    ensures Leftmost(s, 0, alts) == Some((n, k))
  {
    LeftmostAt(s, n, alts, k);
    var m := Leftmost(s, 0, alts).value;
    if alts == WatchPrefixes {
      PrefixesDistinct(s, n, m.1, k);
    }
  }

  /** A link with a watch, short-link or embed prefix, behind text holding
      no 'y', yields exactly the id that follows the prefix: the capture
      stops at the first `&`, `?`, `#` or line break, and `/` or spaces
      belong to the id. */
  lemma WatchLink(pre: string, k: nat, id: string, rest: string)
    requires 'y' !in pre && k < |WatchPrefixes|
    requires id != [] && forall c :: 0 <= c < |id| ==> IsIdChar(id[c])
    requires rest == [] || !IsIdChar(rest[0])
    ensures ExtractVideoId(pre + WatchPrefixes[k] + id + rest) == Some(id)
  {
    var s := pre + WatchPrefixes[k] + id + rest;
    assert forall i :: 0 <= i < |pre| ==> s[i] == pre[i];
    NoMatchInWithoutY(s, |pre|, WatchPrefixes);
    FirstMatchAt(pre, WatchPrefixes, k, id, rest);
  }

  /** The shorts prefix is none of the watch prefixes. */
  lemma ShortsIsNotWatch(s: string, i: nat, j: nat)
    requires j < |WatchPrefixes|
    requires i + |ShortsPrefixes[0]| <= |s| && s[i..i + |ShortsPrefixes[0]|] == ShortsPrefixes[0]
    ensures !Matches(s, i, WatchPrefixes[j])
  {
    var a := WatchPrefixes[j];
    var b := ShortsPrefixes[0];
    assert s[i + 5] == b[5] && s[i + 12] == b[12];
    if i + |a| <= |s| {
      assert s[i..i + |a|][5] == s[i + 5];
      if |a| > 12 {
        assert s[i..i + |a|][12] == s[i + 12];
      }
    }
  }

  /** A shorts link, with no 'y' anywhere else in the text, yields the id
      that follows the shorts prefix. */
  lemma ShortsLink(pre: string, id: string, rest: string)
    requires 'y' !in pre && 'y' !in id && 'y' !in rest
    requires id != [] && forall c :: 0 <= c < |id| ==> IsIdChar(id[c])
    requires rest == [] || !IsIdChar(rest[0])
    ensures ExtractVideoId(pre + ShortsPrefixes[0] + id + rest) == Some(id)
  {
    var lit := ShortsPrefixes[0];
    var s := pre + lit + id + rest;
    forall i | 0 <= i < |s| && i != |pre| ensures s[i] != 'y' {
      if i < |pre| {
        assert s[i] == pre[i];
      } else if i < |pre| + |lit| {
        assert s[i] == lit[i - |pre|];
      } else if i < |pre| + |lit| + |id| {
        assert s[i] == id[i - |pre| - |lit|];
      } else {
        assert s[i] == rest[i - |pre| - |lit| - |id|];
      }
    }
    assert s[|pre|..|pre| + |lit|] == lit;
    forall i, j | 0 <= i <= |s| && 0 <= j < |WatchPrefixes| ensures !Matches(s, i, WatchPrefixes[j]) {
      if i == |pre| {
        ShortsIsNotWatch(s, i, j);
      } else if i < |s| {
        NoMatchWithoutY(s, i, WatchPrefixes, j);
      }
    }
    NoMatchInWithoutY(s, |pre|, ShortsPrefixes);
    FirstMatchAt(pre, ShortsPrefixes, 0, id, rest);
  }

  /** The watch pattern is tried on the whole text first, so a watch link
      wins even when a shorts link comes before it. */
  lemma WatchBeatsEarlierShorts(pre: string, sid: string, k: nat, id: string, rest: string)
    requires 'y' !in pre && 'y' !in sid && k < |WatchPrefixes|
    requires id != [] && forall c :: 0 <= c < |id| ==> IsIdChar(id[c])
    requires rest == [] || !IsIdChar(rest[0])
    ensures ExtractVideoId(pre + ShortsPrefixes[0] + sid + "?" + WatchPrefixes[k] + id + rest) == Some(id)
  {
    var lit := ShortsPrefixes[0];
    var head := pre + lit + sid + "?";
    var s := head + WatchPrefixes[k] + id + rest;
    assert s == pre + ShortsPrefixes[0] + sid + "?" + WatchPrefixes[k] + id + rest;
    forall i | 0 <= i < |head| && i != |pre| ensures s[i] != 'y' {
      if i < |pre| {
        assert s[i] == pre[i];
      } else if i < |pre| + |lit| {
        assert s[i] == lit[i - |pre|];
      } else if i < |pre| + |lit| + |sid| {
        assert s[i] == sid[i - |pre| - |lit|];
      } else {
        assert s[i] == '?';
      }
    }
    assert s[|pre|..|pre| + |lit|] == lit;
    forall i, j | 0 <= i < |head| && 0 <= j < |WatchPrefixes| ensures !Matches(s, i, WatchPrefixes[j]) {
      if i == |pre| {
        ShortsIsNotWatch(s, i, j);
      } else {
        NoMatchWithoutY(s, i, WatchPrefixes, j);
      }
    }
    FirstMatchAt(head, WatchPrefixes, k, id, rest);
  }

  /** At one position at most one of the watch prefixes can match. */
  lemma PrefixesDistinct(s: string, i: nat, j: nat, k: nat)
    requires j < |WatchPrefixes| && k < |WatchPrefixes|
    requires Matches(s, i, WatchPrefixes[j]) && Matches(s, i, WatchPrefixes[k])
    ensures j == k
  {
    var a := WatchPrefixes[j];
    var b := WatchPrefixes[k];
    assert s[i..i + |a|][5] == s[i + 5] == s[i..i + |b|][5];
    if |a| > 12 && |b| > 12 {
      assert s[i..i + |a|][12] == s[i + 12] == s[i..i + |b|][12];
    }
  }
}
