/**
 * The JavaScript string primitives the core relies on: the white-space class
 * shared by the regex escape `\s` and `String.prototype.trim`, `trim`,
 * `split` on a single character, `join`, `Number.prototype.toString` on
 * naturals, `parseInt` on digit strings and `padStart`.
 */
module Text {

  /** ECMAScript WhiteSpace and LineTerminator code points: the set matched by
      `\s` and removed by `trim` (both use the same set). */
  predicate IsWs(c: char) {
    || ('\t' <= c <= '\r')
    || c == ' ' || c == '\U{00A0}' || c == '\U{1680}'
    || ('\U{2000}' <= c <= '\U{200A}')
    || c == '\U{2028}' || c == '\U{2029}' || c == '\U{202F}' || c == '\U{205F}'
    || c == '\U{3000}' || c == '\U{FEFF}'
  }

  /** The regex class `\d`: ASCII decimal digits only. */
  predicate IsDigit(c: char) {
    '0' <= c <= '9'
  }

  predicate AllWs(s: string) {
    forall i :: 0 <= i < |s| ==> IsWs(s[i])
  }

  predicate AllDigits(s: string) {
    forall i :: 0 <= i < |s| ==> IsDigit(s[i])
  }

  /** Neither end of `s` is white space. */
  predicate IsTrimmed(s: string) {
    s == [] || (!IsWs(s[0]) && !IsWs(s[|s| - 1]))
  }

  /** `r` is `s` with a white-space prefix and a white-space suffix removed. */
  predicate IsInfixBetweenWs(r: string, s: string) {
    exists i, j :: 0 <= i <= j <= |s| && r == s[i..j] && AllWs(s[..i]) && AllWs(s[j..])
  }

  /** How many white-space characters open `s`. */
  function LeadingWs(s: string): (n: nat)
    ensures n <= |s| && AllWs(s[..n])
    ensures n == |s| || !IsWs(s[n])
  {
    if s != [] && IsWs(s[0]) then
      var m := LeadingWs(s[1..]);
      1 + m
    else 0
  }

  /** How many white-space characters close `s`. */
  function TrailingWs(s: string): (n: nat)
    ensures n <= |s| && AllWs(s[|s| - n..])
    ensures n == |s| || !IsWs(s[|s| - n - 1])
  {
    if s != [] && IsWs(s[|s| - 1]) then
      var m := TrailingWs(s[..|s| - 1]);
      1 + m
    else 0
  }

  /** Drops leading white space (what a trailing `\s*` of a regex consumes). */
  function TrimStart(s: string): (r: string)
    ensures |r| <= |s| && r == s[|s| - |r|..]
    ensures AllWs(s[..|s| - |r|])
    ensures r == [] || !IsWs(r[0])
  {
    s[LeadingWs(s)..]
  }

  /** `String.prototype.trim`: drops white space at both ends. */
  function Trim(s: string): (r: string)
    ensures IsTrimmed(r)
    ensures IsInfixBetweenWs(r, s)
    ensures r == [] <==> AllWs(s)
  {
    var i := LeadingWs(s);
    var t := s[i..];
    var n := TrailingWs(t);
    var e := |s| - n;
    assert AllWs(s[e..]) && (e == i || !IsWs(s[e - 1])) by {
      assert t[|t| - n..] == s[e..];
      assert e > i ==> t[|t| - n - 1] == s[e - 1];
    }
    TrimmedEnds(s, i, e);
    TrimBetweenWs(s, i, e);
    TrimEmpty(s, i, e);
    s[i..e]
  }

  /** What Trim knows of its cut points `i` and `e`: white space before
      `i` and from `e` on, and a non-blank character at each of them unless
      the cut is empty. */
  predicate TrimCut(s: string, i: nat, e: nat) {
    && i <= e <= |s| && AllWs(s[..i]) && AllWs(s[e..])
    && (i == |s| || !IsWs(s[i])) && (e == i || !IsWs(s[e - 1]))
  }

  lemma TrimmedEnds(s: string, i: nat, e: nat)
    requires TrimCut(s, i, e)
    ensures IsTrimmed(s[i..e])
  {
    assert i < e ==> s[i..e][0] == s[i] && s[i..e][e - i - 1] == s[e - 1];
  }

  lemma TrimBetweenWs(s: string, i: nat, e: nat)
    requires TrimCut(s, i, e)
    ensures IsInfixBetweenWs(s[i..e], s)
  {
  }

  lemma TrimEmpty(s: string, i: nat, e: nat)
    requires TrimCut(s, i, e)
    ensures s[i..e] == [] <==> AllWs(s)
  {
    assert e < |s| ==> s[e..][0] == s[e];
    assert i == |s| ==> s[..i] == s;
  }

  /** Every character of an infix occurs in the whole. */
  lemma InfixChars(s: string, a: nat, b: nat)
    requires a <= b <= |s|
    ensures forall c :: c in s[a..b] ==> c in s
  {
    forall c | c in s[a..b] ensures c in s {
      var k :| 0 <= k < b - a && s[a..b][k] == c;
      assert s[a + k] == c;
    }
  }

  /** Trimming introduces no character. */
  lemma TrimChars(s: string)
    ensures forall c :: c in Trim(s) ==> c in s
  {
    var i, j :| 0 <= i <= j <= |s| && Trim(s) == s[i..j] && AllWs(s[..i]) && AllWs(s[j..]);
    InfixChars(s, i, j);
  }

  /** Trimming already-trimmed text changes nothing. */
  lemma {:induction false} TrimOfTrimmed(s: string)
    requires IsTrimmed(s)
    ensures Trim(s) == s
  {
  }

  /** The trimmed form is unique: any non-empty infix between white space
      whose ends are not blank is the trim. */
  lemma TrimUnique(r: string, s: string, i: nat, j: nat)
    requires i <= j <= |s| && r == s[i..j] && AllWs(s[..i]) && AllWs(s[j..])
    requires IsTrimmed(r) && r != []
    ensures Trim(s) == r
  {
    var n := LeadingWs(s);
    assert r[0] == s[i] && r[|r| - 1] == s[j - 1];
    assert n == i by {
      WsBefore(s, i);
      WsBefore(s, n);
    }
    var t := s[i..];
    var m := TrailingWs(t);
    assert m == |t| - (j - i) by {
      var e := |s| - m;
      assert t[|t| - m..] == s[e..];
      assert m < |t| ==> t[|t| - m - 1] == s[e - 1];
      WsFrom(s, j);
      WsFrom(s, e);
    }
  }

  /** A white-space run ending at the end or at another character is
      exactly the run LeadingWs measures. */
  lemma LeadingWsExact(s: string, n: nat)
    requires n <= |s| && AllWs(s[..n]) && (n == |s| || !IsWs(s[n]))
    ensures LeadingWs(s) == n
  {
    WsBefore(s, n);
    WsBefore(s, LeadingWs(s));
  }

  lemma WsBefore(s: string, i: nat)
    requires i <= |s| && AllWs(s[..i])
    ensures forall k :: 0 <= k < i ==> IsWs(s[k])
  {
    forall k | 0 <= k < i ensures IsWs(s[k]) {
      assert s[..i][k] == s[k];
    }
  }

  lemma WsFrom(s: string, j: nat)
    requires j <= |s| && AllWs(s[j..])
    ensures forall k :: j <= k < |s| ==> IsWs(s[k])
  {
    forall k | j <= k < |s| ensures IsWs(s[k]) {
      assert s[j..][k - j] == s[k];
    }
  }

  /** `s.split(sep)` for a one-character separator: the pieces between
      separators, always at least one (the empty string splits to `[""]`). */
  function Split(s: string, sep: char): (parts: seq<string>)
    ensures |parts| >= 1
    ensures sep !in s ==> parts == [s]
  {
    if s == [] then [[]]
    else
      var rest := Split(s[1..], sep);
      assert s == [s[0]] + s[1..];
      if s[0] == sep then [[]] + rest
      else [[s[0]] + rest[0]] + rest[1..]
  }

  /** No piece of a split holds the separator. */
  lemma {:induction false} SplitNoSep(s: string, sep: char)
    ensures forall k :: 0 <= k < |Split(s, sep)| ==> sep !in Split(s, sep)[k]
  {
    if s != [] {
      SplitNoSep(s[1..], sep);
      var rest := Split(s[1..], sep);
      if s[0] != sep {
        assert sep !in [s[0]] + rest[0];
      }
    }
  }

  /** `parts.join(sep)`. */
  function Join(parts: seq<string>, sep: char): string {
    if |parts| == 0 then []
    else if |parts| == 1 then parts[0]
    else parts[0] + [sep] + Join(parts[1..], sep)
  }

  /** Joining the pieces of a split gives back the text. */
  lemma {:induction false} JoinSplit(s: string, sep: char)
    ensures Join(Split(s, sep), sep) == s
  {
    if s != [] {
      var rest := Split(s[1..], sep);
      JoinSplit(s[1..], sep);
      if s[0] == sep {
        assert Split(s, sep) == [[]] + rest;
      } else {
        var parts := Split(s, sep);
        assert parts == [[s[0]] + rest[0]] + rest[1..];
        if |rest| == 1 {
          assert Join(parts, sep) == [s[0]] + rest[0];
        } else {
          assert parts[1..] == rest[1..];
          assert Join(parts, sep) == [s[0]] + rest[0] + [sep] + Join(rest[1..], sep);
        }
      }
    }
  }

  /** A separator-free prefix extends the first piece of a split. */
  lemma {:induction false} SplitPrefix(w: string, t: string, sep: char)
    requires sep !in w
    ensures Split(w + t, sep) == [w + Split(t, sep)[0]] + Split(t, sep)[1..]
  {
    var parts := Split(t, sep);
    if w == [] {
      assert w + t == t && w + parts[0] == parts[0];
      assert parts == [parts[0]] + parts[1..];
    } else {
      var rest := Split(w[1..] + t, sep);
      assert rest == [w[1..] + parts[0]] + parts[1..] by {
        assert sep !in w[1..] by { assert w == [w[0]] + w[1..]; }
        SplitPrefix(w[1..], t, sep);
      }
      assert Split(w + t, sep) == [[w[0]] + rest[0]] + rest[1..] by {
        assert w[0] in w;
        assert (w + t)[0] == w[0] && (w + t)[1..] == w[1..] + t;
      }
      assert [w[0]] + rest[0] == w + parts[0] by {
        assert rest[0] == w[1..] + parts[0];
        assert w == [w[0]] + w[1..];
      }
      assert rest[1..] == parts[1..];
    }
  }

  /** Splitting a join of separator-free pieces gives back the pieces. */
  lemma {:induction false} SplitJoin(parts: seq<string>, sep: char)
    requires |parts| >= 1
    requires forall k :: 0 <= k < |parts| ==> sep !in parts[k]
    ensures Split(Join(parts, sep), sep) == parts
  {
    if |parts| == 1 {
      SplitPrefix(parts[0], [], sep);
      assert parts[0] + [] == parts[0];
    } else {
      var tail := Join(parts[1..], sep);
      SplitJoin(parts[1..], sep);
      SplitPrefix(parts[0], [sep] + tail, sep);
      assert parts[0] + [sep] + tail == parts[0] + ([sep] + tail);
      assert ([sep] + tail)[0] == sep && ([sep] + tail)[1..] == tail;
      assert Split([sep] + tail, sep) == [[]] + parts[1..];
      assert Join(parts, sep) == parts[0] + [sep] + tail;
      assert parts[0] + [] == parts[0];
      assert parts == [parts[0]] + parts[1..];
    }
  }

  /** Joining two non-empty lists of pieces puts one separator between
      their joins. */
  lemma {:induction false} JoinAppend(p: seq<string>, q: seq<string>, sep: char)
    requires |p| >= 1 && |q| >= 1
    ensures Join(p + q, sep) == Join(p, sep) + [sep] + Join(q, sep)
  {
    assert (p + q)[0] == p[0];
    if |p| == 1 {
      assert (p + q)[1..] == q;
    } else {
      JoinAppend(p[1..], q, sep);
      assert (p + q)[1..] == p[1..] + q;
      var jp, jq := Join(p[1..], sep), Join(q, sep);
      assert p[0] + [sep] + (jp + [sep] + jq) == (p[0] + [sep] + jp) + [sep] + jq;
    }
  }

  /** `split` distributes over a separator: the lines of `a + sep + b` are
      the lines of `a` followed by the lines of `b`. */
  lemma SplitAppend(a: string, b: string, sep: char)
    ensures Split(a + [sep] + b, sep) == Split(a, sep) + Split(b, sep)
  {
    var parts := Split(a, sep) + Split(b, sep);
    assert Join(parts, sep) == a + [sep] + b by {
      JoinAppend(Split(a, sep), Split(b, sep), sep);
      JoinSplit(a, sep);
      JoinSplit(b, sep);
    }
    assert forall k :: 0 <= k < |parts| ==> sep !in parts[k] by {
      SplitNoSep(a, sep);
      SplitNoSep(b, sep);
      assert forall k :: |Split(a, sep)| <= k < |parts| ==> parts[k] == Split(b, sep)[k - |Split(a, sep)|];
    }
    SplitJoin(parts, sep);
  }

  /** Length of the maximal run of decimal digits starting at `from`: what a
      greedy `\d+` (or `\d*`) consumes there. */
  function DigitRun(s: string, from: nat): (n: nat)
    requires from <= |s|
    ensures from + n <= |s|
    ensures AllDigits(s[from..from + n])
    ensures from + n == |s| || !IsDigit(s[from + n])
    decreases |s| - from
  {
    if from < |s| && IsDigit(s[from]) then
      var m := DigitRun(s, from + 1);
      assert AllDigits(s[from..from + 1 + m]) by {
        var run := s[from..from + 1 + m];
        forall k | 0 <= k < |run| ensures IsDigit(run[k]) {
          assert run[k] == s[from + k];
          if k > 0 {
            assert s[from + k] == s[from + 1..from + 1 + m][k - 1];
          }
        }
      }
      1 + m
    else 0
  }

  /** No run of digits at `from` is longer than DigitRun's. */
  lemma {:induction false} DigitRunMaximal(s: string, from: nat, k: nat)
    requires from + k <= |s| && AllDigits(s[from..from + k])
    ensures k <= DigitRun(s, from)
    decreases k
  {
    if k > 0 {
      assert s[from..from + k][0] == s[from];
      assert s[from + 1..from + k] == s[from..from + k][1..];
      DigitRunMaximal(s, from + 1, k - 1);
    }
  }

  /** A run of digits ending at the end of the text or at a non-digit is
      exactly the run DigitRun measures. */
  lemma {:induction false} DigitRunExact(s: string, from: nat, k: nat)
    requires from + k <= |s| && AllDigits(s[from..from + k])
    requires from + k == |s| || !IsDigit(s[from + k])
    ensures DigitRun(s, from) == k
    decreases k
  {
    if k > 0 {
      assert s[from..from + k][0] == s[from];
      assert s[from + 1..from + k] == s[from..from + k][1..];
      DigitRunExact(s, from + 1, k - 1);
    }
  }

  function DigitChar(d: nat): (c: char)
    requires d < 10
    ensures IsDigit(c)
  {
    (('0' as int) + d) as char
  }

  function DigitValue(c: char): (d: nat)
    requires IsDigit(c)
    ensures d < 10 && DigitChar(d) == c
  {
    (c as int) - ('0' as int)
  }

  /** `n.toString()` for a natural: its decimal digits, no leading zero. */
  function Show(n: nat): (r: string)
    ensures |r| >= 1 && AllDigits(r)
    ensures |r| > 1 ==> r[0] != '0'
  {
    if n < 10 then [DigitChar(n)] else Show(n / 10) + [DigitChar(n % 10)]
  }

  /** `parseInt` on a run of decimal digits: zero exactly when every digit
      is a zero. */
  function ParseDigits(s: string): (n: nat)
    requires AllDigits(s)
    ensures n == 0 <==> forall k :: 0 <= k < |s| ==> s[k] == '0'
  {
    if s == [] then 0 else ParseDigits(s[..|s| - 1]) * 10 + DigitValue(s[|s| - 1])
  }

  /** Reading back a shown natural gives the natural. */
  lemma {:induction false} ParseShow(n: nat)
    ensures ParseDigits(Show(n)) == n
  {
    if n >= 10 {
      var s := Show(n);
      assert s[..|s| - 1] == Show(n / 10);
      ParseShow(n / 10);
    }
  }

  /** `parseInt` ignores leading zeros. */
  lemma {:induction false} ParseLeadingZero(s: string)
    requires AllDigits(s)
    ensures AllDigits(['0'] + s) && ParseDigits(['0'] + s) == ParseDigits(s)
  {
    if s != [] {
      var z := ['0'] + s;
      assert z[..|z| - 1] == ['0'] + s[..|s| - 1];
      ParseLeadingZero(s[..|s| - 1]);
    }
  }

  /** `s.padStart(width, fill)` with a one-character fill. */
  function PadStart(s: string, width: nat, fill: char): (r: string)
    ensures |r| == if |s| >= width then |s| else width
    ensures r[|r| - |s|..] == s
    ensures forall i :: 0 <= i < |r| - |s| ==> r[i] == fill
  {
    if |s| >= width then s else seq(width - |s|, _ => fill) + s
  }
}
