/** The title-variation normalisation shared by the three provider copies
    (api/generate-titles.ts, server/groq.ts, server/claude.ts): the reply is
    cut into lines, each line loses a leading `digits.` marker and its
    surrounding white space, empty lines are dropped and the first five
    survivors are kept. */
module Titles {
  import opened Text

  /** The most variations the pipeline passes on (`slice(0, 5)`). */
  const MaxVariations: nat := 5

  /** The removed text matches `\d+\.\s*`: digits, a period, white space. */
  predicate IsMarker(p: string) {
    exists k :: 0 < k < |p| && AllDigits(p[..k]) && p[k] == '.' && AllWs(p[k + 1..])
  }

  /** The line starts with `\d+\.`, decided greedily: the maximal digit run
      is followed by a period. */
  predicate HasMarker(line: string)
    ensures HasMarker(line) ==> |line| > 1 && IsDigit(line[0]) && '.' in line
  {
    var k := DigitRun(line, 0);
    assert 0 < k <= |line| ==> line[0..k][0] == line[0];
    0 < k < |line| && line[k] == '.'
  }

  /** Greedy matching loses nothing: `^\d+\.` matches some prefix exactly when
      the maximal digit run is followed by a period, since a shorter run is
      followed by a digit. */
  lemma {:induction false} HasMarkerIffRegexMatches(line: string)
    ensures HasMarker(line) <==>
            exists k :: 0 < k < |line| && AllDigits(line[..k]) && line[k] == '.'
  {
    var n := DigitRun(line, 0);
    if HasMarker(line) {
      assert line[0..n] == line[..n];
    }
    if k :| 0 < k < |line| && AllDigits(line[..k]) && line[k] == '.' {
      assert line[0..k] == line[..k];
      DigitRunMaximal(line, 0, k);
      assert n == k;
    }
  }

  /** `line.replace(/^\d+\.\s*\/, '')`: the result is a suffix of the line; it
      is the whole line unless the line starts with a marker, in which case
      the removed prefix is a marker and all white space after the period
      went with it. Only the start of the line is ever touched. */
  function StripMarker(line: string): (r: string)
    ensures |r| <= |line| && r == line[|line| - |r|..]
    ensures !HasMarker(line) ==> r == line
    ensures HasMarker(line) ==> IsMarker(line[..|line| - |r|]) && (r == [] || !IsWs(r[0]))
  {
    if HasMarker(line) then
      var k := DigitRun(line, 0);
      var rest := line[k + 1..];
      var r := TrimStart(rest);
      assert rest[|rest| - |r|..] == line[|line| - |r|..];
      MarkerPrefix(line, k, r);
      r
    else line
  }

  lemma MarkerPrefix(line: string, k: nat, r: string)
    requires 0 < k < |line| && line[k] == '.' && AllDigits(line[0..k])
    requires |r| <= |line| - k - 1 && r == line[|line| - |r|..]
    requires AllWs(line[k + 1..][..|line| - k - 1 - |r|])
    ensures IsMarker(line[..|line| - |r|])
  {
    var p := line[..|line| - |r|];
    assert p[..k] == line[0..k];
    assert p[k] == '.';
    assert p[k + 1..] == line[k + 1..][..|line| - k - 1 - |r|];
  }

  /** Stripping the marker introduces no character. */
  lemma StripMarkerChars(line: string)
    ensures forall c :: c in StripMarker(line) ==> c in line
  {
    var s := StripMarker(line);
    assert line[|line| - |s|..|line|] == s;
    InfixChars(line, |line| - |s|, |line|);
  }

  /** One line of model output after `replace(...)` and `trim()`. */
  function CleanLine(line: string): (r: string)
    ensures IsTrimmed(r)
    ensures forall c :: c in r ==> c in line
  {
    var s := StripMarker(line);
    StripMarkerChars(line);
    TrimChars(s);
    Trim(s)
  }

  /** `xs.map(f)`. */
  function Map<A, B>(f: A -> B, xs: seq<A>): (r: seq<B>)
    ensures |r| == |xs|
    ensures forall i :: 0 <= i < |xs| ==> r[i] == f(xs[i])
  {
    if xs == [] then [] else [f(xs[0])] + Map(f, xs[1..])
  }

  /** `.map(CleanLine)`. */
  function CleanAll(lines: seq<string>): (r: seq<string>)
    ensures |r| == |lines|
    ensures forall i :: 0 <= i < |r| ==> r[i] == CleanLine(lines[i])
  {
    Map(CleanLine, lines)
  }

  /** `.filter(line => line.length > 0)`. */
  function DropEmpty(lines: seq<string>): (r: seq<string>)
    ensures |r| <= |lines|
    ensures forall i :: 0 <= i < |r| ==> r[i] != [] && r[i] in lines
    ensures (forall i :: 0 <= i < |lines| ==> lines[i] != []) ==> r == lines
  {
    if lines == [] then []
    else if lines[0] == [] then DropEmpty(lines[1..])
    else
      assert lines == [lines[0]] + lines[1..];
      [lines[0]] + DropEmpty(lines[1..])
  }

  /** `.slice(0, n)`: the first `n` elements, or all of them if there are fewer. */
  function Take<T>(xs: seq<T>, n: nat): (r: seq<T>)
    ensures |r| == if |xs| < n then |xs| else n
    ensures r <= xs
    ensures forall i :: 0 <= i < |r| ==> r[i] == xs[i]
  {
    if |xs| < n then xs else xs[..n]
  }

  /** The surviving candidates: every cleaned line that is not empty, in order. */
  function Candidates(text: string): (r: seq<string>)
    ensures |r| <= |Split(text, '\n')|
    ensures forall i :: 0 <= i < |r| ==> r[i] != []
  {
    DropEmpty(CleanAll(Split(text, '\n')))
  }

  /** Every candidate is non-empty, trimmed and free of newlines. */
  lemma CandidatesAreClean(text: string)
    ensures forall i :: 0 <= i < |Candidates(text)| ==>
              Candidates(text)[i] != [] && IsTrimmed(Candidates(text)[i]) && '\n' !in Candidates(text)[i]
  {
    var lines := Split(text, '\n');
    var cleaned := CleanAll(lines);
    var c := DropEmpty(cleaned);
    SplitNoSep(text, '\n');
    forall i | 0 <= i < |c| ensures IsTrimmed(c[i]) && '\n' !in c[i] {
      assert c[i] in cleaned;
      var k :| 0 <= k < |cleaned| && cleaned[k] == c[i];
      assert cleaned[k] == CleanLine(lines[k]) && '\n' !in lines[k];
    }
  }

  /** The normalisation pipeline. At most five variations, each non-empty,
      trimmed and free of newlines; they are the first surviving candidates
      in their original order, never padded. */
  function Normalize(text: string): (r: seq<string>)
    ensures |r| <= MaxVariations
    ensures forall i :: 0 <= i < |r| ==> r[i] != [] && IsTrimmed(r[i]) && '\n' !in r[i]
    ensures r <= Candidates(text)
    ensures |r| == if |Candidates(text)| < MaxVariations then |Candidates(text)| else MaxVariations
  {
    var c := Candidates(text);
    CandidatesAreClean(text);
    Take(c, MaxVariations)
  }

  /** Mapping distributes over concatenation. */
  lemma MapAppend<A, B>(f: A -> B, xs: seq<A>, ys: seq<A>)
    ensures Map(f, xs + ys) == Map(f, xs) + Map(f, ys)
  {
    var l, r := Map(f, xs + ys), Map(f, xs) + Map(f, ys);
    forall i | 0 <= i < |l| ensures l[i] == r[i] {
      if i < |xs| {
        assert (xs + ys)[i] == xs[i];
      } else {
        assert (xs + ys)[i] == ys[i - |xs|];
      }
    }
  }

  lemma {:induction false} DropEmptyAppend(xs: seq<string>, ys: seq<string>)
    ensures DropEmpty(xs + ys) == DropEmpty(xs) + DropEmpty(ys)
  {
    if xs == [] {
      assert xs + ys == ys;
    } else {
      assert (xs + ys)[0] == xs[0] && (xs + ys)[1..] == xs[1..] + ys;
      DropEmptyAppend(xs[1..], ys);
    }
  }

  /** Order is preserved: the candidates of two blocks of text joined by a
      newline are those of the first block followed by those of the second. */
  lemma {:induction false} CandidatesAppend(a: string, b: string)
    ensures Candidates(a + "\n" + b) == Candidates(a) + Candidates(b)
  {
    SplitAppend(a, b, '\n');
    MapAppend(CleanLine, Split(a, '\n'), Split(b, '\n'));
    DropEmptyAppend(CleanAll(Split(a, '\n')), CleanAll(Split(b, '\n')));
  }

  /** Each line of a blank text is blank. */
  lemma {:induction false} SplitAllWs(s: string, sep: char)
    requires AllWs(s)
    ensures forall k :: 0 <= k < |Split(s, sep)| ==> AllWs(Split(s, sep)[k])
  {
    if s != [] {
      assert AllWs(s[1..]) by {
        forall i | 0 <= i < |s[1..]| ensures IsWs(s[1..][i]) { assert s[1..][i] == s[i + 1]; }
      }
      SplitAllWs(s[1..], sep);
      var rest := Split(s[1..], sep);
      if s[0] != sep {
        var head := [s[0]] + rest[0];
        assert AllWs(head) by {
          forall i | 0 <= i < |head| ensures IsWs(head[i]) {
            if i > 0 { assert head[i] == rest[0][i - 1]; }
          }
        }
        assert Split(s, sep) == [head] + rest[1..];
      } else {
        assert Split(s, sep) == [[]] + rest;
      }
    }
  }

  /** A blank line cleans to the empty string. */
  lemma CleanLineBlank(line: string)
    requires AllWs(line)
    ensures CleanLine(line) == []
  {
    assert DigitRun(line, 0) == 0 by {
      if line != [] { assert IsWs(line[0]); }
    }
  }

  /** Filtering a list of empty strings leaves nothing. */
  lemma DropEmptyOfEmpties(lines: seq<string>)
    requires forall k :: 0 <= k < |lines| ==> lines[k] == []
    ensures DropEmpty(lines) == []
  {
  }

  /** An empty or all-white-space completion yields no variations (and no
      error). */
  lemma NormalizeBlank(text: string)
    requires AllWs(text)
    ensures Normalize(text) == []
  {
    var lines := Split(text, '\n');
    SplitAllWs(text, '\n');
    var cleaned := CleanAll(lines);
    forall k | 0 <= k < |cleaned| ensures cleaned[k] == [] {
      CleanLineBlank(lines[k]);
    }
    DropEmptyOfEmpties(cleaned);
  }

  /** A line already clean (trimmed, not starting with a marker) is left alone. */
  lemma CleanLineOfClean(line: string)
    requires IsTrimmed(line) && !HasMarker(line)
    ensures CleanLine(line) == line
  {
    TrimOfTrimmed(line);
  }

  /** Joining no variations gives the empty text, which normalises to none. */
  lemma NormalizeEmptyJoin()
    ensures Normalize(Join([], '\n')) == []
  {
    NormalizeBlank(Join([], '\n'));
  }

  /** Cleaning a list of clean lines changes none of them. */
  lemma CleanAllOfClean(lines: seq<string>)
    requires forall i :: 0 <= i < |lines| ==> IsTrimmed(lines[i]) && !HasMarker(lines[i])
    ensures CleanAll(lines) == lines
  {
    forall i | 0 <= i < |lines| ensures CleanLine(lines[i]) == lines[i] {
      CleanLineOfClean(lines[i]);
    }
  }

  /** Normalisation is idempotent on its own output as long as no variation
      itself starts with a `digits.` marker. */
  lemma NormalizeIdempotent(text: string)
    requires forall i :: 0 <= i < |Normalize(text)| ==> !HasMarker(Normalize(text)[i])
    ensures Normalize(Join(Normalize(text), '\n')) == Normalize(text)
  {
    var r := Normalize(text);
    if r == [] {
      NormalizeEmptyJoin();
    } else {
      assert Split(Join(r, '\n'), '\n') == r by { SplitJoin(r, '\n'); }
      assert CleanAll(r) == r by { CleanAllOfClean(r); }
      assert DropEmpty(r) == r;
      assert |r| <= MaxVariations;
    }
  }

  /** The marker and the white space after it are removed together. */
  lemma StripMarkerOf(digits: string, ws: string, body: string)
    requires digits != [] && AllDigits(digits) && AllWs(ws) && (body == [] || !IsWs(body[0]))
    ensures StripMarker(digits + "." + ws + body) == body
  {
    var line := digits + "." + ws + body;
    var k := |digits|;
    assert DigitRun(line, 0) == k by {
      assert line[0..k] == digits && line[k] == '.';
      DigitRunExact(line, 0, k);
    }
    var rest := line[k + 1..];
    assert rest == ws + body;
    assert LeadingWs(rest) == |ws| by {
      assert rest[..|ws|] == ws;
      assert |ws| < |rest| ==> rest[|ws|] == body[0];
      LeadingWsExact(rest, |ws|);
    }
    assert HasMarker(line);
    assert TrimStart(rest) == body by {
      assert rest[|ws|..] == body;
    }
  }

  /** A line made of a `digits.` marker, white space and a trimmed body
      cleans to exactly the body: the marker goes once, the body is kept
      whole even when it starts with another marker. */
  lemma CleanLineStripsMarker(digits: string, ws: string, body: string)
    requires digits != [] && AllDigits(digits) && AllWs(ws) && IsTrimmed(body)
    ensures CleanLine(digits + "." + ws + body) == body
  {
    StripMarkerOf(digits, ws, body);
    TrimOfTrimmed(body);
  }

  /** A single line of text yields at most its own cleaned form. */
  lemma NormalizeOneLine(line: string)
    requires '\n' !in line
    ensures Normalize(line) == if CleanLine(line) == [] then [] else [CleanLine(line)]
  {
    var cleaned := CleanAll(Split(line, '\n'));
    assert cleaned == [CleanLine(line)];
    var c := DropEmpty(cleaned);
    assert c == if CleanLine(line) == [] then [] else [CleanLine(line)] by {
      assert cleaned[1..] == [];
    }
    assert Take(c, MaxVariations) == c;
  }

  /** A one-line text of a `digits.` marker, a space and a trimmed body
      normalises to the body alone. */
  lemma NormalizeMarkedLine(digits: string, body: string)
    requires digits != [] && AllDigits(digits)
    requires body != [] && IsTrimmed(body) && '\n' !in body
    ensures Normalize(digits + ". " + body) == [body]
  {
    var line := digits + ". " + body;
    assert line == digits + "." + " " + body;
    assert AllWs(" ");
    assert '\n' !in line by {
      assert forall i :: 0 <= i < |digits| ==> IsDigit(digits[i]);
      assert forall i :: 0 <= i < |line| ==> line[i] in digits || line[i] in ". " || line[i] in body;
    }
    CleanLineStripsMarker(digits, " ", body);
    NormalizeOneLine(line);
  }

  /** The marker is stripped once only: a line such as "1. 2. Foo" becomes
      "2. Foo" after one pass and "Foo" after a second, so without the
      premise of NormalizeIdempotent normalisation is not idempotent. */
  lemma NormalizeNotIdempotent(d1: string, d2: string, body: string)
    requires d1 != [] && AllDigits(d1) && d2 != [] && AllDigits(d2)
    requires body != [] && IsTrimmed(body) && '\n' !in body
    ensures Normalize(d1 + ". " + d2 + ". " + body) == [d2 + ". " + body]
    ensures Normalize(Join(Normalize(d1 + ". " + d2 + ". " + body), '\n')) == [body]
  {
    var inner := d2 + ". " + body;
    assert d1 + ". " + d2 + ". " + body == d1 + ". " + inner;
    assert IsTrimmed(inner) by {
      assert inner[0] == d2[0];
      assert inner[|inner| - 1] == body[|body| - 1];
    }
    assert '\n' !in inner by {
      assert forall i :: 0 <= i < |d2| ==> IsDigit(d2[i]);
      assert forall i :: 0 <= i < |inner| ==> inner[i] in d2 || inner[i] in ". " || inner[i] in body;
    }
    NormalizeMarkedLine(d1, inner);
    assert Join([inner], '\n') == inner;
    NormalizeMarkedLine(d2, body);
  }
}
