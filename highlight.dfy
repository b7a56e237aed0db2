/** `HighlightText`: a report line is cut into plain runs and `**…**`
    runs by `split` on the capturing pattern `(\*\*.*?\*\*)`, and each run
    that starts and ends with `**` is shown without its markers in a
    colour chosen from its wording. */
module Highlight {
  import opened Wrappers
  import opened Seqs

  /** Characters `.` does not match in a JavaScript pattern. */
  predicate IsLineTerminator(c: char) {
    c == '\n' || c == '\r' || c == '\U{2028}' || c == '\U{2029}'
  }

  predicate MarkerAt(s: string, k: nat) {
    k + 2 <= |s| && s[k] == '*' && s[k + 1] == '*'
  }

  /** The lazy `.*?\*\*` from position k: the first `**` at or after k,
      provided no line terminator comes before it. */
  function FindClose(s: string, k: nat): (r: Option<nat>)
    requires k <= |s|
    ensures r.Some? ==> k <= r.value && MarkerAt(s, r.value)
    ensures r.Some? ==> forall j :: k <= j < r.value ==> !IsLineTerminator(s[j]) && !MarkerAt(s, j)
    decreases |s| - k
  {
    if k + 2 > |s| then None
    else if MarkerAt(s, k) then Some(k)
    else if IsLineTerminator(s[k]) then None
    else FindClose(s, k + 1)
  }

  /** A match of the pattern: the text s[start..end]. */
  datatype Match = Match(start: nat, end: nat)

  /** The match starting exactly at i, if the pattern matches there. */
  function MatchAt(s: string, i: nat): (r: Option<Match>)
    requires i <= |s|
    ensures r.Some? ==> r.value.start == i && i + 4 <= r.value.end <= |s|
    ensures r.Some? ==> MarkerAt(s, i) && MarkerAt(s, r.value.end - 2)
  {
    if !MarkerAt(s, i) then None
    else
      match FindClose(s, i + 2)
      case None => None
      case Some(j) => Some(Match(i, j + 2))
  }

  /** The leftmost match starting at or after q. */
  function NextMatch(s: string, q: nat): (r: Option<Match>)
    requires q <= |s|
    ensures r.Some? ==> q <= r.value.start && r.value.start + 4 <= r.value.end <= |s|
    ensures r.Some? ==> MatchAt(s, r.value.start) == Some(r.value)
    ensures r.Some? ==> forall i :: q <= i < r.value.start ==> MatchAt(s, i).None?
    ensures r.None? ==> forall i :: q <= i <= |s| ==> MatchAt(s, i).None?
    decreases |s| - q
  {
    if q == |s| then None
    else
      match MatchAt(s, q)
      case Some(m) => Some(m)
      case None => NextMatch(s, q + 1)
  }

  /** `s.split(/(\*\*.*?\*\*)/g)` from position p: the text before each
      match, then the match itself (the capture), and finally the rest. */
  function SplitFrom(s: string, p: nat): (parts: seq<string>)
    requires p <= |s|
    ensures |parts| % 2 == 1
    decreases |s| - p
  {
    match NextMatch(s, p)
    case None => [s[p..]]
    case Some(m) => [s[p..m.start], s[m.start..m.end]] + SplitFrom(s, m.end)
  }

  function Split(s: string): seq<string> {
    SplitFrom(s, 0)
  }

  function Concat(parts: seq<string>): string {
    if parts == [] then "" else parts[0] + Concat(parts[1..])
  }

  /** Joining the parts gives back the text: the capturing split loses
      nothing. */
  lemma {:induction false} SplitConcat(s: string, p: nat)
    requires p <= |s|
    ensures Concat(SplitFrom(s, p)) == s[p..]
    decreases |s| - p
  {
    match NextMatch(s, p)
    case None =>
    case Some(m) =>
      SplitConcat(s, m.end);
      ConcatTwo(s[p..m.start], s[m.start..m.end], SplitFrom(s, m.end));
      SliceThree(s, p, m.start, m.end);
  }

  lemma ConcatTwo(a: string, b: string, rest: seq<string>)
    ensures Concat([a, b] + rest) == a + (b + Concat(rest))
  {
    assert ([a, b] + rest)[1..] == [b] + rest;
    assert ([b] + rest)[1..] == rest;
  }

  lemma SliceThree(s: string, p: nat, i: nat, e: nat)
    requires p <= i <= e <= |s|
    ensures s[p..] == s[p..i] + (s[i..e] + s[e..])
  {
  }

  /** No plain part of the split (even position) contains a match of its
      own: the split misses no `**…**` run. */
  lemma {:induction false} SplitPlainHasNoMatch(s: string, p: nat)
    requires p <= |s|
    ensures forall k :: 0 <= k < |SplitFrom(s, p)| && k % 2 == 0 ==> NextMatch(SplitFrom(s, p)[k], 0).None?
    decreases |s| - p
  {
    var parts := SplitFrom(s, p);
    match NextMatch(s, p)
    case None =>
      NoMatchInSlice(s, p, |s|);
      assert parts[0] == s[p..|s|];
    case Some(m) =>
      SplitPlainHasNoMatch(s, m.end);
      var rest := SplitFrom(s, m.end);
      NoMatchInSlice(s, p, m.start);
      forall k | 0 <= k < |parts| && k % 2 == 0
        ensures NextMatch(parts[k], 0).None?
      {
        if k >= 2 {
          assert parts[k] == rest[k - 2];
        }
      }
  }

  /** The text part at even position k of the split from p spans a stretch
      of the line where no match starts. */
  predicate PlainStandsAt(s: string, p: nat, parts: seq<string>, k: nat)
    requires k < |parts|
  {
    p + |Concat(parts[..k + 1])| <= |s| &&
    forall i :: p + |Concat(parts[..k])| <= i < p + |Concat(parts[..k + 1])| ==> MatchAt(s, i).None?
  }

  /** `split` takes the leftmost match each time: no match of the line
      starts inside a text part (even position), so every match the line
      holds there would have been captured first. */
  lemma {:induction false} SplitPlainSkipsNoMatch(s: string, p: nat)
    requires p <= |s|
    ensures forall k :: 0 <= k < |SplitFrom(s, p)| && k % 2 == 0 ==> PlainStandsAt(s, p, SplitFrom(s, p), k)
    decreases |s| - p
  {
    match NextMatch(s, p)
    case None =>
      LastPlain(s, p);
    case Some(m) =>
      SplitPlainSkipsNoMatch(s, m.end);
      forall k | 0 <= k < |SplitFrom(s, p)| && k % 2 == 0
        ensures PlainStandsAt(s, p, SplitFrom(s, p), k)
      {
        PlainStep(s, p, m, k);
      }
  }

  /** One text part of the split: the first lies before the leftmost
      match, a later one is a text part of the split that follows it. */
  lemma PlainStep(s: string, p: nat, m: Match, k: nat)
    requires p <= |s| && NextMatch(s, p) == Some(m)
    requires k < |SplitFrom(s, p)| && k % 2 == 0
    requires k >= 2 ==> PlainStandsAt(s, m.end, SplitFrom(s, m.end), k - 2)
    ensures PlainStandsAt(s, p, SplitFrom(s, p), k)
  {
    if k == 0 {
      FirstPlain(s, p, m);
    } else {
      LaterOffsets(s, p, m, k - 2);
      ShiftPlain(s, p, m.end, SplitFrom(s, p), SplitFrom(s, m.end), k - 2);
    }
  }

  /** Without a further match, the one remaining part is the rest of the
      line, where no match starts. */
  lemma LastPlain(s: string, p: nat)
    requires p <= |s| && NextMatch(s, p).None?
    ensures |SplitFrom(s, p)| == 1 && PlainStandsAt(s, p, SplitFrom(s, p), 0)
  {
    var parts := SplitFrom(s, p);
    assert parts == [s[p..]];
    assert parts[..0] == [] && parts[..1] == [s[p..]];
    assert Concat([s[p..]]) == s[p..] + Concat([]);
  }

  /** The text before the first match holds no match. */
  lemma FirstPlain(s: string, p: nat, m: Match)
    requires p <= |s| && NextMatch(s, p) == Some(m)
    ensures 1 < |SplitFrom(s, p)| && PlainStandsAt(s, p, SplitFrom(s, p), 0)
  {
    FirstOffsets(s, p, m);
    assert SplitFrom(s, p)[..0] == [];
  }

  /** A text part standing at the same place under two ways of counting. */
  lemma ShiftPlain(s: string, p: nat, q: nat, parts: seq<string>, rest: seq<string>, j: nat)
    requires j < |rest| && j + 2 < |parts|
    requires p + |Concat(parts[..j + 2])| == q + |Concat(rest[..j])|
    requires p + |Concat(parts[..j + 2 + 1])| == q + |Concat(rest[..j + 1])|
    requires PlainStandsAt(s, q, rest, j)
    ensures PlainStandsAt(s, p, parts, j + 2)
  {
  }

  /** The capture at odd position k of the split from p is the match at
      its offset. */
  predicate CaptureStandsAt(s: string, p: nat, parts: seq<string>, k: nat)
    requires k < |parts|
  {
    p + |Concat(parts[..k])| <= |s| &&
    MatchAt(s, p + |Concat(parts[..k])|) == Some(Match(p + |Concat(parts[..k])|, p + |Concat(parts[..k + 1])|))
  }

  /** Each capture of the split (odd position) is the match of the
      pattern at the offset where it stands in the text. */
  lemma {:induction false} SplitCapturesAreMatches(s: string, p: nat)
    requires p <= |s|
    ensures forall k :: 0 <= k < |SplitFrom(s, p)| && k % 2 == 1 ==> CaptureStandsAt(s, p, SplitFrom(s, p), k)
    decreases |s| - p
  {
    match NextMatch(s, p)
    case None =>
      assert |SplitFrom(s, p)| == 1;
    case Some(m) =>
      SplitCapturesAreMatches(s, m.end);
      forall k | 0 <= k < |SplitFrom(s, p)| && k % 2 == 1
        ensures CaptureStandsAt(s, p, SplitFrom(s, p), k)
      {
        CaptureStep(s, p, m, k);
      }
  }

  /** One capture of the split: the first is the leftmost match, a later
      one is a capture of the split that follows it. */
  lemma CaptureStep(s: string, p: nat, m: Match, k: nat)
    requires p <= |s| && NextMatch(s, p) == Some(m)
    requires k < |SplitFrom(s, p)| && k % 2 == 1
    requires k >= 3 ==> CaptureStandsAt(s, m.end, SplitFrom(s, m.end), k - 2)
    ensures CaptureStandsAt(s, p, SplitFrom(s, p), k)
  {
    if k == 1 {
      FirstCapture(s, p, m);
    } else {
      LaterCapture(s, p, m, k - 2);
    }
  }

  /** A later capture of the split is a capture of the split that follows
      the first match, shifted to its place. */
  lemma LaterCapture(s: string, p: nat, m: Match, j: nat)
    requires p <= |s| && NextMatch(s, p) == Some(m)
    requires j + 2 < |SplitFrom(s, p)|
    requires CaptureStandsAt(s, m.end, SplitFrom(s, m.end), j)
    ensures CaptureStandsAt(s, p, SplitFrom(s, p), j + 2)
  {
    LaterOffsets(s, p, m, j);
    ShiftCapture(s, p, m.end, SplitFrom(s, p), SplitFrom(s, m.end), j);
  }

  /** A capture standing at the same place under two ways of counting. */
  lemma ShiftCapture(s: string, p: nat, q: nat, parts: seq<string>, rest: seq<string>, j: nat)
    requires j < |rest| && j + 2 < |parts|
    requires p + |Concat(parts[..j + 2])| == q + |Concat(rest[..j])|
    requires p + |Concat(parts[..j + 2 + 1])| == q + |Concat(rest[..j + 1])|
    requires CaptureStandsAt(s, q, rest, j)
    ensures CaptureStandsAt(s, p, parts, j + 2)
  {
  }

  /** Where the parts after the first capture begin: the split that
      follows the first match, shifted by its end. */
  lemma LaterOffsets(s: string, p: nat, m: Match, j: nat)
    requires p <= |s| && NextMatch(s, p) == Some(m)
    requires j + 2 < |SplitFrom(s, p)|
    ensures j < |SplitFrom(s, m.end)|
    ensures p + |Concat(SplitFrom(s, p)[..j + 2])| == m.end + |Concat(SplitFrom(s, m.end)[..j])|
    ensures p + |Concat(SplitFrom(s, p)[..j + 2 + 1])| == m.end + |Concat(SplitFrom(s, m.end)[..j + 1])|
  {
    var parts, rest := SplitFrom(s, p), SplitFrom(s, m.end);
    var a, b := s[p..m.start], s[m.start..m.end];
    assert parts == [a, b] + rest;
    PrefixLengths(a, b, rest, j + 2);
    assert (j + 2) - 2 == j && (j + 2) - 1 == j + 1;
  }

  /** The first capture of the split is the leftmost match. */
  lemma FirstCapture(s: string, p: nat, m: Match)
    requires p <= |s| && NextMatch(s, p) == Some(m)
    ensures 1 < |SplitFrom(s, p)| && CaptureStandsAt(s, p, SplitFrom(s, p), 1)
  {
    FirstOffsets(s, p, m);
  }

  /** The first capture starts where the first match starts and ends
      where it ends. */
  lemma FirstOffsets(s: string, p: nat, m: Match)
    requires p <= |s| && NextMatch(s, p) == Some(m)
    ensures 1 < |SplitFrom(s, p)|
    ensures p + |Concat(SplitFrom(s, p)[..1])| == m.start
    ensures p + |Concat(SplitFrom(s, p)[..1 + 1])| == m.end
  {
    var a, b, rest := s[p..m.start], s[m.start..m.end], SplitFrom(s, m.end);
    assert SplitFrom(s, p) == [a, b] + rest;
    PrefixLengths(a, b, rest, 1);
  }

  /** Lengths of the prefixes of `[a, b] + rest`, joined. */
  lemma PrefixLengths(a: string, b: string, rest: seq<string>, k: nat)
    requires 1 <= k < |rest| + 2
    ensures k == 1 ==> |Concat(([a, b] + rest)[..k])| == |a| && |Concat(([a, b] + rest)[..k + 1])| == |a| + |b|
    ensures k >= 2 ==> |Concat(([a, b] + rest)[..k])| == |a| + |b| + |Concat(rest[..k - 2])|
    ensures k >= 2 ==> |Concat(([a, b] + rest)[..k + 1])| == |a| + |b| + |Concat(rest[..k - 1])|
  {
    var parts := [a, b] + rest;
    if k == 1 {
      assert parts[..1] == [a] + [];
      assert parts[..2] == [a, b] + [];
      ConcatTwo(a, b, []);
      assert Concat([a]) == a + Concat([]);
    } else {
      assert parts[..k] == [a, b] + rest[..k - 2];
      assert parts[..k + 1] == [a, b] + rest[..k - 1];
      ConcatTwo(a, b, rest[..k - 2]);
      ConcatTwo(a, b, rest[..k - 1]);
    }
  }

  /** A `**` run found by the lazy scan inside a slice is found at the
      same place in the whole text. */
  lemma {:induction false} FindCloseSlice(s: string, a: nat, b: nat, k: nat)
    requires a <= b <= |s| && k <= b - a
    ensures FindClose(s[a..b], k).Some? ==> FindClose(s, a + k) == Some(a + FindClose(s[a..b], k).value)
    decreases b - a - k
  {
    var t := s[a..b];
    if k + 2 <= |t| && !MarkerAt(t, k) && !IsLineTerminator(t[k]) {
      assert t[k] == s[a + k] && t[k + 1] == s[a + k + 1];
      FindCloseSlice(s, a, b, k + 1);
    } else if k + 2 <= |t| && MarkerAt(t, k) {
      assert t[k] == s[a + k] && t[k + 1] == s[a + k + 1];
    }
  }

  /** A match inside a slice is a match of the whole text. */
  lemma MatchAtSlice(s: string, a: nat, b: nat, j: nat)
    requires a <= b <= |s| && j <= b - a
    ensures MatchAt(s[a..b], j).Some? ==> MatchAt(s, a + j).Some?
  {
    var t := s[a..b];
    if MatchAt(t, j).Some? {
      assert t[j] == s[a + j] && t[j + 1] == s[a + j + 1];
      FindCloseSlice(s, a, b, j + 2);
    }
  }

  /** A stretch of the text where no match starts holds no match. */
  lemma NoMatchInSlice(s: string, a: nat, b: nat)
    requires a <= b <= |s|
    requires forall i :: a <= i < b ==> MatchAt(s, i).None?
    ensures NextMatch(s[a..b], 0).None?
  {
    var r := NextMatch(s[a..b], 0);
    if r.Some? {
      MatchAtSlice(s, a, b, r.value.start);
      assert false;
    }
  }

  /** Every captured part, at the odd positions, is `**`, a run of text
      without line terminators or inner `**`, and `**`. */
  lemma {:induction false} CapturesAreMarked(s: string, p: nat)
    requires p <= |s|
    ensures forall k :: 0 <= k < |SplitFrom(s, p)| && k % 2 == 1 ==> Marked(SplitFrom(s, p)[k])
    decreases |s| - p
  {
    match NextMatch(s, p)
    case None =>
    case Some(m) =>
      CapturesAreMarked(s, m.end);
      var part := s[m.start..m.end];
      var j := m.end - 2;
      assert FindClose(s, m.start + 2) == Some(j);
      forall t | 2 <= t < |part| - 2
        ensures !IsLineTerminator(part[t]) && !MarkerAt(part, t)
      {
        assert part[t] == s[m.start + t] && part[t + 1] == s[m.start + t + 1];
        assert !MarkerAt(s, m.start + t);
      }
      assert Marked(part);
      var parts := SplitFrom(s, p);
      var rest := SplitFrom(s, m.end);
      forall k | 0 <= k < |parts| && k % 2 == 1
        ensures Marked(parts[k])
      {
        if k > 1 {
          assert parts[k] == rest[k - 2];
        }
      }
  }

  /** `part.startsWith('**') && part.endsWith('**')` with a plain run in
      between; a capture always has this shape. */
  predicate Marked(part: string) {
    4 <= |part| && MarkerAt(part, 0) && MarkerAt(part, |part| - 2)
    && forall k :: 2 <= k < |part| - 2 ==> !IsLineTerminator(part[k]) && !MarkerAt(part, k)
  }

  // ---------------------------------------------------------------------
  // Rendering

  predicate StartsWithText(s: string, t: string) {
    |t| <= |s| && s[..|t|] == t
  }

  predicate EndsWithText(s: string, t: string) {
    |t| <= |s| && s[|s| - |t|..] == t
  }

  /** `s.includes(t)`. */
  predicate Includes(s: string, t: string)
    decreases |s|
  {
    StartsWithText(s, t) || (s != [] && Includes(s[1..], t))
  }

  /** `part.slice(2, -2)`: empty when the part is shorter than four. */
  function Inner(part: string): (c: string)
    ensures |part| >= 4 && StartsWithText(part, "**") && EndsWithText(part, "**") ==> "**" + c + "**" == part
    ensures |part| < 4 ==> c == ""
  {
    if |part| >= 4 then part[2..|part| - 2] else ""
  }

  datatype Colour = Red | Green | Yellow | Blue | Gray

  /** The highlight colour of a marked run's content: warning words or a
      leading minus first, then success words, then improvement words,
      blue otherwise. */
  function ColourOf(content: string): (c: Colour)
    ensures c != Gray
    ensures c == Red <==> Includes(content, "부족") || Includes(content, "경고") || StartsWithText(content, "-")
    ensures c == Green <==> c != Red && (Includes(content, "양호") || Includes(content, "달성"))
    ensures c == Yellow <==> c != Red && c != Green && (Includes(content, "필요") || Includes(content, "개선"))
  {
    if Includes(content, "부족") || Includes(content, "경고") || StartsWithText(content, "-") then Red
    else if Includes(content, "양호") || Includes(content, "달성") then Green
    else if Includes(content, "필요") || Includes(content, "개선") then Yellow
    else Blue
  }

  datatype Span = Span(colour: Colour, text: string)

  /** How one part is shown: a part that starts and ends with `**` as its
      inner text in its colour, any other part unchanged in gray. */
  function RenderPart(part: string): (r: Span)
    ensures StartsWithText(part, "**") && EndsWithText(part, "**") ==>
              r == Span(ColourOf(Inner(part)), Inner(part))
    ensures !(StartsWithText(part, "**") && EndsWithText(part, "**")) ==> r == Span(Gray, part)
  {
    if StartsWithText(part, "**") && EndsWithText(part, "**") then
      var content := Inner(part);
      Span(ColourOf(content), content)
    else Span(Gray, part)
  }

  /** A captured run loses exactly its two markers on screen. */
  lemma MarkedShowsInner(part: string)
    requires Marked(part)
    ensures RenderPart(part).text == part[2..|part| - 2]
    ensures "**" + RenderPart(part).text + "**" == part
    ensures RenderPart(part).colour != Gray
  {
    assert StartsWithText(part, "**") && EndsWithText(part, "**");
    assert part == part[..2] + part[2..|part| - 2] + part[|part| - 2..];
  }

  /** A line consisting of a lone `**` (no partner to pair with) is also
      taken as a marked run, and shows as nothing at all. */
  lemma LoneMarkerVanishes()
    ensures Split("**") == ["**"]
    ensures RenderPart("**") == Span(Blue, "")
  {
    assert MatchAt("**", 0).None? by {
      assert FindClose("**", 2).None?;
    }
    assert NextMatch("**", 1).None? by {
      assert MatchAt("**", 1).None?;
      assert NextMatch("**", 2).None?;
    }
    assert !Includes("", "부족") && !Includes("", "경고") && !Includes("", "양호");
    assert !Includes("", "달성") && !Includes("", "필요") && !Includes("", "개선");
  }

  /** The spans of a whole line, one per split part, in order. */
  function Render(text: string): (r: seq<Span>)
    ensures |r| == |Split(text)| && |r| % 2 == 1
    ensures forall k :: 0 <= k < |r| ==> r[k] == RenderPart(Split(text)[k])
  {
    MapSeqAt(RenderPart, Split(text));
    MapSeq(RenderPart, Split(text))
  }

  /** Each captured run of a line is shown coloured, without its markers,
      at its own position among the spans. */
  lemma RenderCaptures(text: string)
    ensures |Render(text)| == |Split(text)|
    ensures forall k :: 0 <= k < |Split(text)| && k % 2 == 1 ==>
              Render(text)[k].colour != Gray && "**" + Render(text)[k].text + "**" == Split(text)[k]
  {
    MapSeqAt(RenderPart, Split(text));
    CapturesAreMarked(text, 0);
    forall k | 0 <= k < |Split(text)| && k % 2 == 1
      ensures Render(text)[k].colour != Gray && "**" + Render(text)[k].text + "**" == Split(text)[k]
    {
      MarkedShowsInner(Split(text)[k]);
    }
  }
}
