/** The reference extractor of `fetch_issue`: the pattern
    `(?P<owner>[\w.-]*)/(?P<repo>[\w.-]*)#(?P<issue_number>\d*)` searched left to right,
    non-overlapping, leftmost-first, with the request URL overwritten on every match so that
    the last match wins and no match leaves it empty. `\w` and `\d` are taken as ASCII. */
module GithubAdapter {
  import opened Results
  import opened Strings

  /** `\w` over ASCII: letters, digits and underscore. */
  predicate IsWordChar(c: char) {
    ('a' <= c <= 'z') || ('A' <= c <= 'Z') || IsAsciiDigit(c) || c == '_'
  }

  /** The class `[\w.-]` that owner and repository names are drawn from. */
  predicate IsNameChar(c: char) {
    IsWordChar(c) || c == '.' || c == '-'
  }

  predicate AllNameChars(s: string) {
    forall i :: 0 <= i < |s| ==> IsNameChar(s[i])
  }

  /** A character that neither extends a name or a number nor is a separator of the pattern,
      such as a space or `%`. */
  predicate IsBoundary(c: char) {
    !IsNameChar(c) && c != '/' && c != '#'
  }

  /** The three named groups of one match. */
  datatype Capture = Capture(owner: string, repo: string, number: string)

  predicate ValidCapture(c: Capture) {
    AllNameChars(c.owner) && AllNameChars(c.repo) && AllDigits(c.number)
  }

  /** The text a capture re-serialises to, `owner/repo#number`. */
  function Render(c: Capture): string {
    c.owner + "/" + c.repo + "#" + c.number
  }

  /** One match: where it starts and ends in the searched text, and its captures. */
  datatype Match = Match(start: nat, end: nat, caps: Capture)

  /** Where the maximal run of `[\w.-]` starting at `i` ends: the greedy `[\w.-]*`. */
  function NameEnd(text: string, i: nat): (e: nat)
    requires i <= |text|
    ensures i <= e <= |text|
    decreases |text| - i
  {
    if i < |text| && IsNameChar(text[i]) then NameEnd(text, i + 1) else i
  }

  /** The name run is made of name characters and is maximal. */
  lemma {:induction false} NameEndMaximal(text: string, i: nat)
    requires i <= |text|
    ensures AllNameChars(text[i..NameEnd(text, i)])
    ensures NameEnd(text, i) < |text| ==> !IsNameChar(text[NameEnd(text, i)])
    decreases |text| - i
  {
    if i < |text| && IsNameChar(text[i]) {
      NameEndMaximal(text, i + 1);
      assert text[i..NameEnd(text, i)] == [text[i]] + text[i + 1..NameEnd(text, i)];
    }
  }

  /** Where the maximal run of digits starting at `i` ends: the greedy `\d*`. */
  function DigitEnd(text: string, i: nat): (e: nat)
    requires i <= |text|
    ensures i <= e <= |text|
    decreases |text| - i
  {
    if i < |text| && IsAsciiDigit(text[i]) then DigitEnd(text, i + 1) else i
  }

  /** The digit run is made of digits and is maximal. */
  lemma {:induction false} DigitEndMaximal(text: string, i: nat)
    requires i <= |text|
    ensures AllDigits(text[i..DigitEnd(text, i)])
    ensures DigitEnd(text, i) < |text| ==> !IsAsciiDigit(text[DigitEnd(text, i)])
    decreases |text| - i
  {
    if i < |text| && IsAsciiDigit(text[i]) {
      DigitEndMaximal(text, i + 1);
      assert text[i..DigitEnd(text, i)] == [text[i]] + text[i + 1..DigitEnd(text, i)];
    }
  }

  /** The text between `i` and `d` around a `/` at `o` and a `#` at `r` renders the three runs. */
  lemma RenderOfPieces(text: string, i: nat, o: nat, r: nat, d: nat)
    requires i <= o < r < d <= |text| || (i <= o < r && r + 1 == d && d <= |text|)
    requires text[o] == '/' && text[r] == '#'
    ensures text[i..d] == Render(Capture(text[i..o], text[o + 1..r], text[r + 1..d]))
  {
    assert text[i..d] == text[i..o] + [text[o]] + text[o + 1..r] + [text[r]] + text[r + 1..d];
  }

  /** One attempt of the pattern anchored at position `i`. Neither `/` nor `#` belongs to
      `[\w.-]`, so the greedy name runs never give characters back: the attempt succeeds exactly
      when the maximal name run from `i` is followed by `/`, the next maximal name run by `#`,
      and then takes the maximal digit run. */
  function MatchAt(text: string, i: nat): (r: Option<Match>)
    requires i <= |text|
    ensures r.Some? ==> r.value.start == i && i + 2 <= r.value.end <= |text|
  {
    var o := NameEnd(text, i);
    if o < |text| && text[o] == '/' then
      var r := NameEnd(text, o + 1);
      if r < |text| && text[r] == '#' then
        var d := DigitEnd(text, r + 1);
        Some(Match(i, d, Capture(text[i..o], text[o + 1..r], text[r + 1..d])))
      else None
    else None
  }

  /** A successful attempt spans exactly the rendering of its valid captures, and its digit
      run cannot be extended. */
  lemma MatchAtSound(text: string, i: nat)
    requires i <= |text| && MatchAt(text, i).Some?
    ensures var m := MatchAt(text, i).value;
      text[i..m.end] == Render(m.caps) && ValidCapture(m.caps)
      && (m.end == |text| || !IsAsciiDigit(text[m.end]))
  {
    var o := NameEnd(text, i);
    var r := NameEnd(text, o + 1);
    var d := DigitEnd(text, r + 1);
    NameEndMaximal(text, i);
    NameEndMaximal(text, o + 1);
    DigitEndMaximal(text, r + 1);
    RenderOfPieces(text, i, o, r, d);
  }

  /** A successful attempt, read off the ends of its three runs. */
  lemma MatchAtPieces(text: string, i: nat, o: nat, r: nat, d: nat)
    requires i <= |text| && o == NameEnd(text, i) && o < |text| && text[o] == '/'
    requires r == NameEnd(text, o + 1) && r < |text| && text[r] == '#'
    requires d == DigitEnd(text, r + 1)
    ensures MatchAt(text, i) == Some(Match(i, d, Capture(text[i..o], text[o + 1..r], text[r + 1..d])))
  {
  }

  /** An attempt fails when the owner run is not followed by `/`. */
  lemma NoSlashAfterOwner(text: string, i: nat)
    requires i <= |text|
    requires NameEnd(text, i) == |text| || text[NameEnd(text, i)] != '/'
    ensures MatchAt(text, i).None?
  {
  }

  /** An attempt fails when the repository run is not followed by `#`. */
  lemma NoHashAfterRepo(text: string, i: nat, o: nat)
    requires i <= |text| && o == NameEnd(text, i) && o < |text| && text[o] == '/'
    requires NameEnd(text, o + 1) == |text| || text[NameEnd(text, o + 1)] != '#'
    ensures MatchAt(text, i).None?
  {
  }

  /** The matches `captures_iter` yields when searching `text` from position `i`: try the
      pattern at each position in turn; after a match, resume where it ended. */
  function MatchesFrom(text: string, i: nat): seq<Match>
    requires i <= |text|
    decreases |text| - i
  {
    if i == |text| then []
    else
      match MatchAt(text, i)
      case Some(m) => [m] + MatchesFrom(text, m.end)
      case None => MatchesFrom(text, i + 1)
  }

  /** One step of the search where the attempt succeeds: the match, then the search from its
      end. */
  lemma MatchesFromFound(text: string, i: nat, m: Match)
    requires i < |text| && MatchAt(text, i) == Some(m)
    ensures MatchesFrom(text, i) == [m] + MatchesFrom(text, m.end)
  {
  }

  /** One step of the search where the attempt fails: the search from the next position. */
  lemma MatchesFromMissed(text: string, i: nat)
    requires i < |text| && MatchAt(text, i).None?
    ensures MatchesFrom(text, i) == MatchesFrom(text, i + 1)
  {
  }

  /** Match `m` lies inside `text` at or after `from`, and the text it spans renders its
      captures. */
  predicate PlacedAt(text: string, from: nat, m: Match) {
    from <= m.start < m.end <= |text|
    && text[m.start..m.end] == Render(m.caps)
    && ValidCapture(m.caps)
  }

  /** Every match lies in the searched part of the text and spans exactly `owner/repo#number`
      of its own captures; the matches do not overlap and come left to right. */
  lemma {:induction false} MatchesWellFormed(text: string, i: nat)
    requires i <= |text|
    ensures forall k :: 0 <= k < |MatchesFrom(text, i)| ==> PlacedAt(text, i, MatchesFrom(text, i)[k])
    ensures forall k :: 0 < k < |MatchesFrom(text, i)| ==>
      MatchesFrom(text, i)[k - 1].end <= MatchesFrom(text, i)[k].start
    decreases |text| - i
  {
    if i < |text| {
      match MatchAt(text, i)
      case Some(m) =>
        MatchAtSound(text, i);
        MatchesWellFormed(text, m.end);
      case None =>
        MatchesWellFormed(text, i + 1);
        var ms := MatchesFrom(text, i + 1);
        forall k | 0 <= k < |ms|
          ensures PlacedAt(text, i, ms[k])
        {
          assert PlacedAt(text, i + 1, ms[k]);
        }
    }
  }

  /** The search state of the capture loop after one more attempt at `i`: the matches seen
      so far, then the one found at `i` if any, then those still to come. */
  lemma AdvancePastMatch(text: string, i: nat, seen: seq<Match>, attempt: Option<Match>)
    requires i < |text| && attempt == MatchAt(text, i)
    requires MatchesFrom(text, 0) == seen + MatchesFrom(text, i)
    ensures attempt.Some? ==>
      MatchesFrom(text, 0) == seen + [attempt.value] + MatchesFrom(text, attempt.value.end)
    ensures attempt.None? ==> MatchesFrom(text, 0) == seen + MatchesFrom(text, i + 1)
  {
    if attempt.Some? {
      var later := MatchesFrom(text, attempt.value.end);
      assert MatchesFrom(text, i) == [attempt.value] + later;
      assert seen + ([attempt.value] + later) == seen + [attempt.value] + later;
    }
  }

  function CapturesOf(ms: seq<Match>): (cs: seq<Capture>)
    ensures |cs| == |ms|
    ensures forall k :: 0 <= k < |ms| ==> cs[k] == ms[k].caps
  {
    if |ms| == 0 then [] else [ms[0].caps] + CapturesOf(ms[1..])
  }

  /** The captures of every match in `text`, in order. */
  function Captures(text: string): seq<Capture> {
    CapturesOf(MatchesFrom(text, 0))
  }

  /** The issue endpoint a capture names. */
  function ApiUrlFor(c: Capture): string {
    "https://api.github.com/repos/" + c.owner + "/" + c.repo + "/issues/" + c.number
  }

  /** The URL `fetch_issue` requests for `text`: built from the last match, or empty. */
  function ApiUrl(text: string): (url: string)
    ensures url == [] <==> |Captures(text)| == 0
  {
    var cs := Captures(text);
    if |cs| == 0 then [] else ApiUrlFor(cs[|cs| - 1])
  }

  /** The URL left by a loop that overwrites it with each match in turn. */
  function LastUrl(ms: seq<Match>): string {
    if |ms| == 0 then "" else ApiUrlFor(ms[|ms| - 1].caps)
  }

  /** `ApiUrl` read off the match sequence: the last match's URL, or empty. */
  lemma ApiUrlOfMatches(text: string, ms: seq<Match>)
    requires MatchesFrom(text, 0) == ms
    ensures ApiUrl(text) == LastUrl(ms)
  {
    var cs := Captures(text);
    assert |cs| == |ms|;
    if |ms| > 0 {
      assert cs[|cs| - 1] == ms[|ms| - 1].caps;
    }
  }

  /** The capture loop itself: every match overwrites the URL, starting from the empty string. */
  method FetchIssueUrl(text: string) returns (url: string)
    ensures url == ApiUrl(text)
  {
    url := "";
    var i := 0;
    ghost var seen: seq<Match> := [];
    while i < |text|
      invariant i <= |text|
      invariant MatchesFrom(text, 0) == seen + MatchesFrom(text, i)
      invariant url == LastUrl(seen)
      decreases |text| - i
    {
      var attempt := MatchAt(text, i);
      AdvancePastMatch(text, i, seen, attempt);
      if attempt.Some? {
        url := ApiUrlFor(attempt.value.caps);
        seen := seen + [attempt.value];
        i := attempt.value.end;
      } else {
        i := i + 1;
      }
    }
    assert MatchesFrom(text, i) == [];
    ApiUrlOfMatches(text, seen);
  }

  // ---------------------------------------------------------------------------------------
  // Where a match is found: anchored attempts determined by the text they span

  lemma {:induction false} NameEndAt(text: string, i: nat, e: nat)
    requires i <= e <= |text|
    requires AllNameChars(text[i..e]) && (e < |text| ==> !IsNameChar(text[e]))
    ensures NameEnd(text, i) == e
    decreases e - i
  {
    if i < e {
      assert text[i] == text[i..e][0];
      assert text[i + 1..e] == text[i..e][1..];
      NameEndAt(text, i + 1, e);
    }
  }

  lemma {:induction false} DigitEndAt(text: string, i: nat, e: nat)
    requires i <= e <= |text|
    requires AllDigits(text[i..e]) && (e < |text| ==> !IsAsciiDigit(text[e]))
    ensures DigitEnd(text, i) == e
    decreases e - i
  {
    if i < e {
      assert text[i] == text[i..e][0];
      assert text[i + 1..e] == text[i..e][1..];
      DigitEndAt(text, i + 1, e);
    }
  }

  /** Where the text at `i` spells a valid capture whose digit run cannot be extended, the
      attempt at `i` succeeds with exactly that capture. */
  lemma MatchAtRendered(text: string, i: nat, c: Capture)
    requires ValidCapture(c) && i + |Render(c)| <= |text|
    requires text[i..i + |Render(c)|] == Render(c)
    requires i + |Render(c)| == |text| || !IsAsciiDigit(text[i + |Render(c)|])
    ensures MatchAt(text, i) == Some(Match(i, i + |Render(c)|, c))
  {
    RenderPieces(text, i, c);
    assert |Render(c)| == |c.owner| + 1 + |c.repo| + 1 + |c.number|;
    MatchAtSpelled(text, i, c);
  }

  /** Where the text at `i` spells the three pieces of a valid capture around `/` and `#`, and
      no digit follows, the attempt at `i` succeeds with exactly that capture. */
  lemma MatchAtSpelled(text: string, i: nat, c: Capture)
    requires ValidCapture(c)
    requires var o := i + |c.owner|; var r := o + 1 + |c.repo|; var d := r + 1 + |c.number|;
      && d <= |text| && text[i..o] == c.owner && text[o] == '/'
      && text[o + 1..r] == c.repo && text[r] == '#' && text[r + 1..d] == c.number
      && (d == |text| || !IsAsciiDigit(text[d]))
    ensures MatchAt(text, i) == Some(Match(i, i + |c.owner| + 1 + |c.repo| + 1 + |c.number|, c))
  {
    var o := i + |c.owner|;
    var r := o + 1 + |c.repo|;
    var d := r + 1 + |c.number|;
    RunEnds(text, i, c);
    assert Capture(text[i..o], text[o + 1..r], text[r + 1..d]) == c;
    MatchAtPieces(text, i, o, r, d);
  }

  /** The three runs of a spelled-out capture end where its pieces end. */
  lemma RunEnds(text: string, i: nat, c: Capture)
    requires ValidCapture(c)
    requires var o := i + |c.owner|; var r := o + 1 + |c.repo|; var d := r + 1 + |c.number|;
      && d <= |text| && text[i..o] == c.owner && text[o] == '/'
      && text[o + 1..r] == c.repo && text[r] == '#' && text[r + 1..d] == c.number
      && (d == |text| || !IsAsciiDigit(text[d]))
    ensures var o := i + |c.owner|; var r := o + 1 + |c.repo|;
      && NameEnd(text, i) == o && NameEnd(text, o + 1) == r
      && DigitEnd(text, r + 1) == r + 1 + |c.number|
  {
    var o := i + |c.owner|;
    var r := o + 1 + |c.repo|;
    NameEndAt(text, i, o);
    NameEndAt(text, o + 1, r);
    DigitEndAt(text, r + 1, r + 1 + |c.number|);
  }

  /** Reading the pieces of a rendered capture back out of the text that holds it. */
  lemma RenderPieces(text: string, i: nat, c: Capture)
    requires i + |Render(c)| <= |text| && text[i..i + |Render(c)|] == Render(c)
    ensures var o := i + |c.owner|; var r := o + 1 + |c.repo|;
      && text[i..o] == c.owner && text[o] == '/'
      && text[o + 1..r] == c.repo && text[r] == '#'
      && text[r + 1..r + 1 + |c.number|] == c.number
  {
    var o := i + |c.owner|;
    var r := o + 1 + |c.repo|;
    var upToHash := c.owner + "/" + c.repo + "#";
    var upToRepo := c.owner + "/" + c.repo;
    SliceOfConcat(text, i, upToHash, c.number);
    SliceOfConcat(text, i, upToRepo, "#");
    SliceOfConcat(text, i, c.owner + "/", c.repo);
    SliceOfConcat(text, i, c.owner, "/");
    assert text[o] == text[o..o + 1][0];
    assert text[r] == text[r..r + 1][0];
  }

  /** A slice spelling `a + b` splits into a slice spelling `a` and one spelling `b`. */
  lemma SliceOfConcat(text: string, i: nat, a: string, b: string)
    requires i + |a| + |b| <= |text| && text[i..i + |a| + |b|] == a + b
    ensures text[i..i + |a|] == a && text[i + |a|..i + |a| + |b|] == b
  {
    var s := text[i..i + |a| + |b|];
    assert text[i..i + |a|] == s[..|a|];
    assert text[i + |a|..i + |a| + |b|] == s[|a|..];
  }

  /** Round trip: a valid `owner/repo#number` on its own yields exactly one match, carrying
      exactly those captures, and the URL of that match. */
  lemma RenderRoundTrip(c: Capture)
    requires ValidCapture(c)
    ensures Captures(Render(c)) == [c]
    ensures ApiUrl(Render(c)) == ApiUrlFor(c)
  {
    var text := Render(c);
    assert text[0..|text|] == text;
    MatchAtRendered(text, 0, c);
    assert MatchesFrom(text, 0) == [Match(0, |text|, c)] + MatchesFrom(text, |text|);
    assert MatchesFrom(text, 0) == [Match(0, |text|, c)];
  }

  // ---------------------------------------------------------------------------------------
  // The URL names its captures

  /** Two valid captures with the same issue URL are the same capture: the URL loses nothing. */
  lemma ApiUrlInjective(c1: Capture, c2: Capture)
    requires ValidCapture(c1) && ValidCapture(c2)
    requires ApiUrlFor(c1) == ApiUrlFor(c2)
    ensures c1 == c2
  {
    var tail1 := UrlPath(c1);
    var tail2 := UrlPath(c2);
    assert tail1 == tail2;
    NamesHaveNoSlash(c1);
    NamesHaveNoSlash(c2);
    var rest1 := c1.repo + "/issues/" + c1.number;
    var rest2 := c2.repo + "/issues/" + c2.number;
    SplitAtFirst(c1.owner, rest1, c2.owner, rest2, '/');
    var num1, num2 := "issues/" + c1.number, "issues/" + c2.number;
    assert rest1 == c1.repo + ['/'] + num1;
    assert rest2 == c2.repo + ['/'] + num2;
    SplitAtFirst(c1.repo, num1, c2.repo, num2, '/');
    assert c1.number == num1[7..] && c2.number == num2[7..];
  }

  /** The part of the issue URL after the fixed API prefix. */
  lemma UrlPath(c: Capture) returns (path: string)
    ensures path == c.owner + ['/'] + (c.repo + "/issues/" + c.number)
    ensures path == ApiUrlFor(c)[|"https://api.github.com/repos/"|..]
  {
    var base := "https://api.github.com/repos/";
    path := c.owner + ['/'] + (c.repo + "/issues/" + c.number);
    assert ApiUrlFor(c) == base + path;
  }

  lemma NamesHaveNoSlash(c: Capture)
    requires ValidCapture(c)
    ensures '/' !in c.owner && '/' !in c.repo
  {
  }

  // ---------------------------------------------------------------------------------------
  // Moving matches along

  function ShiftMatch(m: Match, k: nat): Match {
    Match(m.start + k, m.end + k, m.caps)
  }

  function ShiftAll(ms: seq<Match>, k: nat): (r: seq<Match>)
    ensures |r| == |ms|
    ensures forall j :: 0 <= j < |ms| ==> r[j] == ShiftMatch(ms[j], k)
  {
    if |ms| == 0 then [] else [ShiftMatch(ms[0], k)] + ShiftAll(ms[1..], k)
  }

  function ShiftOpt(r: Option<Match>, k: nat): Option<Match> {
    if r.Some? then Some(ShiftMatch(r.value, k)) else None
  }

  lemma ShiftAllCons(m: Match, rest: seq<Match>, k: nat)
    ensures ShiftAll([m] + rest, k) == [ShiftMatch(m, k)] + ShiftAll(rest, k)
  {
    assert ([m] + rest)[1..] == rest;
  }

  // ---------------------------------------------------------------------------------------
  // Matches in a prefix: `u` is the start of `t`, and a boundary character follows it there.

  predicate BoundedPrefix(t: string, u: string) {
    |u| < |t| && t[..|u|] == u && IsBoundary(t[|u|])
  }

  lemma {:induction false} NameEndPrefix(t: string, u: string, i: nat)
    requires BoundedPrefix(t, u) && i <= |u|
    ensures NameEnd(t, i) == NameEnd(u, i)
    decreases |u| - i
  {
    if i < |u| {
      assert t[i] == u[i];
      if IsNameChar(u[i]) {
        NameEndPrefix(t, u, i + 1);
      }
    }
  }

  lemma {:induction false} DigitEndPrefix(t: string, u: string, i: nat)
    requires BoundedPrefix(t, u) && i <= |u|
    ensures DigitEnd(t, i) == DigitEnd(u, i)
    decreases |u| - i
  {
    if i < |u| {
      assert t[i] == u[i];
      if IsAsciiDigit(u[i]) {
        DigitEndPrefix(t, u, i + 1);
      }
    }
  }

  /** Text after a boundary character cannot change an attempt that starts before it. */
  lemma MatchAtPrefix(t: string, u: string, i: nat)
    requires BoundedPrefix(t, u) && i <= |u|
    ensures MatchAt(t, i) == MatchAt(u, i)
  {
    NameEndPrefix(t, u, i);
    var o := NameEnd(u, i);
    if o == |u| || u[o] != '/' {
      PrefixStop(t, u, o, '/');
      NoSlashAfterOwner(u, i);
      NoSlashAfterOwner(t, i);
    } else {
      PrefixChar(t, u, o);
      NameEndPrefix(t, u, o + 1);
      var r := NameEnd(u, o + 1);
      if r == |u| || u[r] != '#' {
        PrefixStop(t, u, r, '#');
        NoHashAfterRepo(u, i, o);
        NoHashAfterRepo(t, i, o);
      } else {
        PrefixChar(t, u, r);
        MatchAtPrefixFound(t, u, i, o, r);
      }
    }
  }

  /** A character of the prefix is the same character in the whole text. */
  lemma PrefixChar(t: string, u: string, x: nat)
    requires BoundedPrefix(t, u) && x < |u|
    ensures t[x] == u[x]
  {
    assert t[..|u|][x] == t[x];
  }

  /** Where the prefix has no character `c` at `x`, neither has the whole text: either both
      differ from `c` there, or the prefix has ended and the text holds a boundary. */
  lemma PrefixStop(t: string, u: string, x: nat, c: char)
    requires BoundedPrefix(t, u) && x <= |u| && (x == |u| || u[x] != c)
    requires c == '/' || c == '#'
    ensures x < |t| && t[x] != c
  {
    if x < |u| {
      PrefixChar(t, u, x);
    }
  }

  /** A slice of the prefix is the same slice of the whole text. */
  lemma PrefixSlice(t: string, u: string, a: nat, b: nat)
    requires BoundedPrefix(t, u) && a <= b <= |u|
    ensures t[a..b] == u[a..b]
  {
    forall x | 0 <= x < b - a
      ensures t[a..b][x] == u[a..b][x]
    {
      PrefixChar(t, u, a + x);
    }
  }

  /** The success case of `MatchAtPrefix`. */
  lemma MatchAtPrefixFound(t: string, u: string, i: nat, o: nat, r: nat)
    requires BoundedPrefix(t, u) && i <= |u|
    requires o == NameEnd(u, i) && o < |u| && u[o] == '/' && t[o] == '/'
    requires r == NameEnd(u, o + 1) && r < |u| && u[r] == '#' && t[r] == '#'
    requires NameEnd(t, i) == o && NameEnd(t, o + 1) == r
    ensures MatchAt(t, i) == MatchAt(u, i)
  {
    DigitEndPrefix(t, u, r + 1);
    var d := DigitEnd(u, r + 1);
    MatchAtPieces(u, i, o, r, d);
    PrefixPieces(t, u, i, o, r, d);
  }

  /** An attempt in `t` whose runs end inside the prefix captures what the prefix holds. */
  lemma PrefixPieces(t: string, u: string, i: nat, o: nat, r: nat, d: nat)
    requires BoundedPrefix(t, u) && i <= o < r < d <= |u|
    requires NameEnd(t, i) == o && t[o] == '/' && NameEnd(t, o + 1) == r && t[r] == '#'
    requires DigitEnd(t, r + 1) == d
    ensures MatchAt(t, i) == Some(Match(i, d, Capture(u[i..o], u[o + 1..r], u[r + 1..d])))
  {
    PrefixSlice(t, u, i, o);
    PrefixSlice(t, u, o + 1, r);
    PrefixSlice(t, u, r + 1, d);
    MatchAtPieces(t, i, o, r, d);
  }

  lemma {:induction false} MatchesFromPrefix(t: string, u: string, i: nat)
    requires BoundedPrefix(t, u) && i <= |u|
    ensures MatchesFrom(t, i) == MatchesFrom(u, i) + MatchesFrom(t, |u|)
    decreases |u| - i
  {
    if i < |u| {
      MatchAtPrefix(t, u, i);
      match MatchAt(u, i)
      case Some(m) =>
        MatchesFromFound(t, i, m);
        MatchesFromPrefix(t, u, m.end);
      case None =>
        MatchesFromMissed(t, i);
        MatchesFromPrefix(t, u, i + 1);
    }
  }

  // ---------------------------------------------------------------------------------------
  // Matches in a suffix: the search from position `k + j` of `t` sees what the search from
  // position `j` of `t[k..]` sees, every position moved along by `k`.

  lemma {:induction false} NameEndShift(t: string, k: nat, v: string, j: nat)
    requires k <= |t| && t[k..] == v && j <= |v|
    ensures NameEnd(t, k + j) == k + NameEnd(v, j)
    decreases |v| - j
  {
    if j < |v| {
      assert t[k + j] == v[j];
      if IsNameChar(v[j]) {
        NameEndShift(t, k, v, j + 1);
        assert k + j + 1 == k + (j + 1);
      }
    }
  }

  lemma {:induction false} DigitEndShift(t: string, k: nat, v: string, j: nat)
    requires k <= |t| && t[k..] == v && j <= |v|
    ensures DigitEnd(t, k + j) == k + DigitEnd(v, j)
    decreases |v| - j
  {
    if j < |v| {
      assert t[k + j] == v[j];
      if IsAsciiDigit(v[j]) {
        DigitEndShift(t, k, v, j + 1);
        assert k + j + 1 == k + (j + 1);
      }
    }
  }

  /** An attempt inside a suffix is the attempt in the suffix on its own, moved along. */
  lemma MatchAtShift(t: string, k: nat, v: string, j: nat)
    requires k <= |t| && t[k..] == v && j <= |v|
    ensures MatchAt(t, k + j) == ShiftOpt(MatchAt(v, j), k)
  {
    NameEndShift(t, k, v, j);
    var o := NameEnd(v, j);
    if o == |v| || v[o] != '/' {
      SuffixStop(t, k, v, o, '/');
      NoSlashAfterOwner(v, j);
      NoSlashAfterOwner(t, k + j);
    } else {
      NameEndShift(t, k, v, o + 1);
      var r := NameEnd(v, o + 1);
      if r == |v| || v[r] != '#' {
        SuffixStop(t, k, v, r, '#');
        SuffixStop(t, k, v, o, '#');
        assert t[k + o] == '/' by { SuffixChar(t, k, v, o); }
        assert k + o + 1 == k + (o + 1);
        NoHashAfterRepo(v, j, o);
        NoHashAfterRepo(t, k + j, k + o);
      } else {
        var d := DigitEnd(v, r + 1);
        MatchAtPieces(v, j, o, r, d);
        MatchAtShiftFound(t, k, v, j, o, r, d);
      }
    }
  }

  /** A character of the suffix is the character `k` further on in the whole text. */
  lemma SuffixChar(t: string, k: nat, v: string, x: nat)
    requires k <= |t| && t[k..] == v && x < |v|
    ensures t[k + x] == v[x]
  {
    assert t[k..][x] == t[k + x];
  }

  /** Where the suffix has no character `c` at `x`, neither has the text at `k + x`. */
  lemma SuffixStop(t: string, k: nat, v: string, x: nat, c: char)
    requires k <= |t| && t[k..] == v && x <= |v| && (x == |v| || v[x] != c)
    ensures k + x == |t| || t[k + x] != c
  {
    if x < |v| {
      SuffixChar(t, k, v, x);
    }
  }

  /** The success case of `MatchAtShift`. */
  lemma MatchAtShiftFound(t: string, k: nat, v: string, j: nat, o: nat, r: nat, d: nat)
    requires k <= |t| && t[k..] == v
    requires j <= |v| && o == NameEnd(v, j) && o < |v| && v[o] == '/'
    requires r == NameEnd(v, o + 1) && r < |v| && v[r] == '#'
    requires d == DigitEnd(v, r + 1)
    ensures MatchAt(t, k + j)
      == Some(ShiftMatch(Match(j, d, Capture(v[j..o], v[o + 1..r], v[r + 1..d])), k))
  {
    ShiftedEnds(t, k, v, j, o, r, d);
    ShiftedPieces(t, k, v, j, o, r, d);
  }

  /** An attempt in `t` whose runs end `k` further on than the given ends in `v` captures
      what `v` holds between them. */
  lemma ShiftedPieces(t: string, k: nat, v: string, j: nat, o: nat, r: nat, d: nat)
    requires k <= |t| && t[k..] == v && j <= o < r < d <= |v|
    requires NameEnd(t, k + j) == k + o && t[k + o] == '/'
    requires NameEnd(t, k + o + 1) == k + r && t[k + r] == '#'
    requires DigitEnd(t, k + r + 1) == k + d
    ensures MatchAt(t, k + j) == Some(Match(k + j, k + d, Capture(v[j..o], v[o + 1..r], v[r + 1..d])))
  {
    SuffixSlice(t, k, v, j, o);
    SuffixSlice(t, k, v, o + 1, r);
    SuffixSlice(t, k, v, r + 1, d);
    MatchAtPieces(t, k + j, k + o, k + r, k + d);
  }

  lemma SuffixSlice(t: string, k: nat, v: string, a: nat, b: nat)
    requires k <= |t| && t[k..] == v && a <= b <= |v|
    ensures t[k + a..k + b] == v[a..b]
  {
    forall x | 0 <= x < b - a
      ensures t[k + a..k + b][x] == v[a..b][x]
    {
      assert t[k + a + x] == t[k..][a + x];
    }
  }

  /** The three run ends of a successful attempt, moved along by `k`. */
  lemma ShiftedEnds(t: string, k: nat, v: string, j: nat, o: nat, r: nat, d: nat)
    requires k <= |t| && t[k..] == v
    requires j <= |v| && o == NameEnd(v, j) && o < |v| && v[o] == '/'
    requires r == NameEnd(v, o + 1) && r < |v| && v[r] == '#'
    requires d == DigitEnd(v, r + 1)
    ensures NameEnd(t, k + j) == k + o && t[k + o] == '/'
    ensures NameEnd(t, k + o + 1) == k + r && t[k + r] == '#'
    ensures DigitEnd(t, k + r + 1) == k + d
  {
    NameEndShift(t, k, v, j);
    NameEndShift(t, k, v, o + 1);
    DigitEndShift(t, k, v, r + 1);
    assert t[k + o] == v[o] && t[k + r] == v[r];
    assert k + o + 1 == k + (o + 1);
    assert k + r + 1 == k + (r + 1);
  }

  /** The search inside a suffix is the search in the suffix on its own, moved along. */
  lemma {:induction false} MatchesFromSuffix(t: string, k: nat, v: string, j: nat)
    requires k <= |t| && t[k..] == v && j <= |v|
    ensures MatchesFrom(t, k + j) == ShiftAll(MatchesFrom(v, j), k)
    decreases |v| - j
  {
    if j < |v| {
      MatchAtShift(t, k, v, j);
      var next, head := ShiftStep(t, k, v, j);
      MatchesFromSuffix(t, k, v, next);
      ShiftAllAppend(head, MatchesFrom(v, next), k);
    }
  }

  /** One attempt of the search in `v` and the corresponding attempt at `k + j` in `t`: both
      report the same matches, moved along by `k`, and resume at corresponding positions. */
  lemma ShiftStep(t: string, k: nat, v: string, j: nat) returns (next: nat, head: seq<Match>)
    requires j < |v| && k + |v| <= |t| && MatchAt(t, k + j) == ShiftOpt(MatchAt(v, j), k)
    ensures j < next <= |v|
    ensures MatchesFrom(v, j) == head + MatchesFrom(v, next)
    ensures MatchesFrom(t, k + j) == ShiftAll(head, k) + MatchesFrom(t, k + next)
  {
    next, head := AttemptStep(v, j);
    StepOfShift(MatchAt(v, j), j, next, head, k);
    StepSplits(t, k + j, ShiftOpt(MatchAt(v, j), k), k + next, ShiftAll(head, k));
  }

  /** Any contribution that matches the attempt at `i` is the one the search makes there. */
  lemma StepSplits(text: string, i: nat, a: Option<Match>, next: nat, head: seq<Match>)
    requires i < |text| && MatchAt(text, i) == a && StepOf(a, i, next, head)
    ensures MatchesFrom(text, i) == head + MatchesFrom(text, next)
  {
    var n2, h2 := AttemptStep(text, i);
    StepOfUnique(a, i, n2, h2, next, head);
  }

  /** What one attempt at `i` contributes to a search: its match if any, and where the search
      resumes. */
  predicate StepOf(a: Option<Match>, i: nat, next: nat, head: seq<Match>) {
    if a.Some? then head == [a.value] && next == a.value.end else head == [] && next == i + 1
  }

  /** The search from `i` is what the attempt at `i` contributes, then the search from where
      it resumes. */
  lemma AttemptStep(text: string, i: nat) returns (next: nat, head: seq<Match>)
    requires i < |text|
    ensures i < next <= |text| && StepOf(MatchAt(text, i), i, next, head)
    ensures MatchesFrom(text, i) == head + MatchesFrom(text, next)
  {
    if MatchAt(text, i).Some? {
      var m := MatchAt(text, i).value;
      next, head := m.end, [m];
      MatchesFromFound(text, i, m);
    } else {
      next, head := i + 1, [];
      MatchesFromMissed(text, i);
      assert [] + MatchesFrom(text, i + 1) == MatchesFrom(text, i + 1);
    }
  }

  lemma StepOfShift(a: Option<Match>, i: nat, next: nat, head: seq<Match>, k: nat)
    requires StepOf(a, i, next, head)
    ensures StepOf(ShiftOpt(a, k), k + i, k + next, ShiftAll(head, k))
  {
    if a.Some? {
      ShiftAllCons(a.value, [], k);
      assert [a.value] + [] == [a.value];
    }
  }

  lemma StepOfUnique(a: Option<Match>, i: nat, n1: nat, h1: seq<Match>, n2: nat, h2: seq<Match>)
    requires StepOf(a, i, n1, h1) && StepOf(a, i, n2, h2)
    ensures n1 == n2 && h1 == h2
  {
  }

  /** The search in the second part of a concatenation, moved along by the first part. */
  lemma MatchesFromShift(p: string, v: string, j: nat)
    requires j <= |v|
    ensures MatchesFrom(p + v, |p| + j) == ShiftAll(MatchesFrom(v, j), |p|)
  {
    assert (p + v)[|p|..] == v;
    MatchesFromSuffix(p + v, |p|, v, j);
  }

  lemma ShiftAllAppend(a: seq<Match>, b: seq<Match>, k: nat)
    ensures ShiftAll(a + b, k) == ShiftAll(a, k) + ShiftAll(b, k)
  {
  }

  lemma CapturesOfAppend(a: seq<Match>, b: seq<Match>)
    ensures CapturesOf(a + b) == CapturesOf(a) + CapturesOf(b)
  {
    var l, r := CapturesOf(a + b), CapturesOf(a) + CapturesOf(b);
    forall k | 0 <= k < |a + b|
      ensures l[k] == r[k]
    {
      if k < |a| {
        assert (a + b)[k] == a[k];
      } else {
        assert (a + b)[k] == b[k - |a|];
      }
    }
  }

  lemma CapturesOfShift(ms: seq<Match>, k: nat)
    ensures CapturesOf(ShiftAll(ms, k)) == CapturesOf(ms)
  {
    assert forall j :: 0 <= j < |ms| ==> CapturesOf(ShiftAll(ms, k))[j] == CapturesOf(ms)[j];
  }

  /** Two texts joined by a boundary character (a space, say) have the matches of the first
      followed by the matches of the second: no match straddles the boundary. */
  lemma CapturesConcat(u: string, c: char, v: string)
    requires IsBoundary(c)
    ensures Captures(u + [c] + v) == Captures(u) + Captures(v)
  {
    var text := u + [c] + v;
    assert text[..|u|] == u && text[|u|] == c;
    MatchesFromPrefix(text, u, 0);
    MatchAtPrefix(text, u, |u|);
    assert MatchAt(u, |u|).None?;
    MatchesFromMissed(text, |u|);
    MatchesFromShift(u + [c], v, 0);
    CapturesOfAppend(MatchesFrom(u, 0), ShiftAll(MatchesFrom(v, 0), |u| + 1));
    CapturesOfShift(MatchesFrom(v, 0), |u| + 1);
  }

  /** Last match wins: whatever references precede a boundary character, the URL is the one
      of the text after it as soon as that text holds a match; otherwise it is the one of the
      text before it. */
  lemma LastMatchWins(u: string, c: char, v: string)
    requires IsBoundary(c)
    ensures |Captures(v)| > 0 ==> ApiUrl(u + [c] + v) == ApiUrl(v)
    ensures |Captures(v)| == 0 ==> ApiUrl(u + [c] + v) == ApiUrl(u)
  {
    CapturesConcat(u, c, v);
    var cs := Captures(u) + Captures(v);
    if |Captures(v)| > 0 {
      assert cs[|cs| - 1] == Captures(v)[|Captures(v)| - 1];
    } else {
      assert cs == Captures(u);
    }
  }

  // ---------------------------------------------------------------------------------------
  // No match

  /** Text without a literal `/` holds no match and yields the empty URL. */
  lemma NoSlashNoMatch(text: string)
    requires '/' !in text
    ensures Captures(text) == []
    ensures ApiUrl(text) == ""
  {
    MatchesContainSlash(text);
  }

  /** Every match spans a literal `/`. */
  lemma MatchesContainSlash(text: string)
    ensures |MatchesFrom(text, 0)| > 0 ==> '/' in text
  {
    var ms := MatchesFrom(text, 0);
    if |ms| > 0 {
      MatchesWellFormed(text, 0);
      var m := ms[0];
      assert PlacedAt(text, 0, m);
      assert text[m.start..m.end][|m.caps.owner|] == '/';
      assert text[m.start + |m.caps.owner|] == '/';
    }
  }

  // ---------------------------------------------------------------------------------------
  // Leftmost-first, non-overlapping

  /** No attempt of the pattern succeeds at any position in `[a, b)`. */
  predicate NoMatchIn(text: string, a: nat, b: nat)
    requires b <= |text|
  {
    forall q :: a <= q < b ==> MatchAt(text, q).None?
  }

  /** What a leftmost-first, non-overlapping search of `text` from `i` must report: each match
      is a successful attempt at the first position, since the previous match ended, where an
      attempt succeeds; and no attempt after the last match succeeds. */
  predicate IsLeftmostScan(text: string, i: nat, ms: seq<Match>)
    requires i <= |text|
    decreases |ms|
  {
    if |ms| == 0 then NoMatchIn(text, i, |text|)
    else
      i <= ms[0].start < |text| && NoMatchIn(text, i, ms[0].start)
      && MatchAt(text, ms[0].start) == Some(ms[0])
      && IsLeftmostScan(text, ms[0].end, ms[1..])
  }

  /** A failed attempt at `i` lets a scan from `i + 1` stand for a scan from `i`. */
  lemma ScanFromEarlier(text: string, i: nat, ms: seq<Match>)
    requires i < |text| && MatchAt(text, i).None?
    requires IsLeftmostScan(text, i + 1, ms)
    ensures IsLeftmostScan(text, i, ms)
  {
    if |ms| == 0 {
      assert NoMatchIn(text, i + 1, |text|);
    } else {
      assert NoMatchIn(text, i + 1, ms[0].start);
    }
  }

  /** The search reports a leftmost-first, non-overlapping scan. */
  lemma {:induction false} MatchesFromIsScan(text: string, i: nat)
    requires i <= |text|
    ensures IsLeftmostScan(text, i, MatchesFrom(text, i))
    decreases |text| - i
  {
    if i < |text| {
      match MatchAt(text, i)
      case Some(m) =>
        MatchesFromIsScan(text, m.end);
        assert MatchesFrom(text, i)[1..] == MatchesFrom(text, m.end);
      case None =>
        MatchesFromIsScan(text, i + 1);
        ScanFromEarlier(text, i, MatchesFrom(text, i + 1));
    }
  }

  /** When no attempt succeeds from `i` on, the search reports nothing. */
  lemma {:induction false} NoMatchNoMatches(text: string, i: nat)
    requires i <= |text| && NoMatchIn(text, i, |text|)
    ensures MatchesFrom(text, i) == []
    decreases |text| - i
  {
    if i < |text| {
      assert MatchAt(text, i).None?;
      NoMatchNoMatches(text, i + 1);
    }
  }

  /** There is only one leftmost-first, non-overlapping scan, and it is the search's. */
  lemma {:induction false} ScanIsMatchesFrom(text: string, i: nat, ms: seq<Match>)
    requires i <= |text| && IsLeftmostScan(text, i, ms)
    ensures ms == MatchesFrom(text, i)
    decreases |text| - i
  {
    if |ms| == 0 {
      NoMatchNoMatches(text, i);
    } else if i < ms[0].start {
      assert MatchAt(text, i).None?;
      assert NoMatchIn(text, i + 1, ms[0].start);
      assert IsLeftmostScan(text, i + 1, ms);
      ScanIsMatchesFrom(text, i + 1, ms);
      MatchesFromMissed(text, i);
    } else {
      ScanIsMatchesFrom(text, ms[0].end, ms[1..]);
      MatchesFromFound(text, i, ms[0]);
    }
  }

  /** The search's result is characterised by the leftmost-first, non-overlapping rule. */
  lemma LeftmostScanExactly(text: string, i: nat, ms: seq<Match>)
    requires i <= |text|
    ensures IsLeftmostScan(text, i, ms) <==> ms == MatchesFrom(text, i)
  {
    if IsLeftmostScan(text, i, ms) {
      ScanIsMatchesFrom(text, i, ms);
    }
    if ms == MatchesFrom(text, i) {
      MatchesFromIsScan(text, i);
    }
  }

  /** Stepping over a name character does not change whether an attempt succeeds: both
      attempts share the rest of the name run. */
  lemma MatchAtNameStep(text: string, q: nat)
    requires q < |text| && IsNameChar(text[q])
    ensures MatchAt(text, q).Some? <==> MatchAt(text, q + 1).Some?
  {
    assert NameEnd(text, q) == NameEnd(text, q + 1);
  }

  /** Match `m` starts where the search resumed at `from`, or just after a character outside
      `[\w.-]`: it never starts inside a name run that the search walked into. */
  predicate StartsAtRun(text: string, from: nat, m: Match) {
    m.start == from || (0 < m.start <= |text| && !IsNameChar(text[m.start - 1]))
  }

  /** Where the matches start: the first at the search's start or after a non-name character,
      each later one where the previous match ended or after a non-name character. So
      `a/b#1c/d#2` holds two matches although `1c` is a single name run. */
  lemma {:induction false} MatchesStartAtRuns(text: string, i: nat)
    requires i <= |text|
    ensures StartsAtRuns(text, i, MatchesFrom(text, i))
    decreases |text| - i
  {
    if i < |text| {
      match MatchAt(text, i)
      case Some(m) =>
        MatchesStartAtRuns(text, m.end);
        MatchesFromFound(text, i, m);
        StartsAtRunsCons(text, i, m, MatchesFrom(text, m.end));
      case None =>
        MatchesStartAtRuns(text, i + 1);
        MatchesFromMissed(text, i);
        var ms := MatchesFrom(text, i + 1);
        if |ms| > 0 {
          MatchesFromIsScan(text, i + 1);
          FirstStartAfterMiss(text, i, ms[0]);
        }
    }
  }

  /** Each match of `ms` starts at a run: the first one with the search begun at `from`, each
      later one with the search resumed where the previous match ended. */
  predicate StartsAtRuns(text: string, from: nat, ms: seq<Match>) {
    (|ms| > 0 ==> StartsAtRun(text, from, ms[0]))
    && forall k :: 0 < k < |ms| ==> StartsAtRun(text, ms[k - 1].end, ms[k])
  }

  lemma StartsAtRunsCons(text: string, i: nat, m: Match, rest: seq<Match>)
    requires m.start == i && StartsAtRuns(text, m.end, rest)
    ensures StartsAtRuns(text, i, [m] + rest)
  {
    var ms := [m] + rest;
    forall k | 0 < k < |ms|
      ensures StartsAtRun(text, ms[k - 1].end, ms[k])
    {
      if k > 1 {
        assert ms[k - 1] == rest[k - 2] && ms[k] == rest[k - 1];
      }
    }
  }

  /** A match that the search from `i + 1` reports first, after a failed attempt at `i`,
      starts where the search from `i` began or right after a non-name character. */
  lemma FirstStartAfterMiss(text: string, i: nat, m: Match)
    requires i < |text| && MatchAt(text, i).None?
    requires StartsAtRun(text, i + 1, m) && m.start <= |text| && MatchAt(text, m.start) == Some(m)
    ensures StartsAtRun(text, i, m)
  {
    if m.start == i + 1 && IsNameChar(text[i]) {
      MatchAtNameStep(text, i);
    }
  }

  // ---------------------------------------------------------------------------------------
  // Examples

  /** Two references written back to back are both found, in order, as long as the second
      does not begin with a digit that would lengthen the first one's number. */
  lemma AdjacentReferences(c1: Capture, c2: Capture)
    requires ValidCapture(c1) && ValidCapture(c2)
    requires !IsAsciiDigit(Render(c2)[0])
    ensures Captures(Render(c1) + Render(c2)) == [c1, c2]
  {
    var u := Render(c1);
    var m2 := ShiftMatch(Match(0, |Render(c2)|, c2), |u|);
    LeadingReference(c1, Render(c2));
    RenderMatchesAfter(u, c2);
    assert [Match(0, |u|, c1)] + [m2] == [Match(0, |u|, c1), m2];
    CapturesOfTwo(Match(0, |u|, c1), m2);
  }

  /** A rendered reference after any text is found where it starts, and ends the search. */
  lemma RenderMatchesAfter(u: string, c: Capture)
    requires ValidCapture(c)
    ensures MatchesFrom(u + Render(c), |u|) == [ShiftMatch(Match(0, |Render(c)|, c), |u|)]
  {
    RenderMatches(c);
    MatchesFromShift(u, Render(c), 0);
    ShiftAllCons(Match(0, |Render(c)|, c), [], |u|);
    assert [Match(0, |Render(c)|, c)] + [] == [Match(0, |Render(c)|, c)];
  }

  /** The captures of two matches, in order. */
  lemma CapturesOfTwo(m1: Match, m2: Match)
    ensures CapturesOf([m1, m2]) == [m1.caps, m2.caps]
  {
    assert [m1, m2][1..] == [m2];
  }

  /** A rendered reference followed by text that does not continue its number is the first
      match, and the search resumes right after it. */
  lemma LeadingReference(c: Capture, v: string)
    requires ValidCapture(c) && (|v| == 0 || !IsAsciiDigit(v[0]))
    ensures MatchesFrom(Render(c) + v, 0) == [Match(0, |Render(c)|, c)] + MatchesFrom(Render(c) + v, |Render(c)|)
  {
    var u := Render(c);
    var text := u + v;
    assert text[0..|u|] == u;
    assert |v| > 0 ==> text[|u|] == v[0];
    MatchAtRendered(text, 0, c);
    MatchesFromFound(text, 0, Match(0, |u|, c));
  }

  /** A rendered reference on its own is exactly one match spanning all of it. */
  lemma RenderMatches(c: Capture)
    requires ValidCapture(c)
    ensures MatchesFrom(Render(c), 0) == [Match(0, |Render(c)|, c)]
  {
    LeadingReference(c, []);
    assert Render(c) + [] == Render(c);
  }

  /** In `a/b#1c/d#2` the second match starts inside the name run `1c`, right where the first
      match ended, and being later it decides the URL. */
  lemma BackToBackReferences(text: string)
    requires text == "a/b#1c/d#2"
    ensures Captures(text) == [Capture("a", "b", "1"), Capture("c", "d", "2")]
    ensures ApiUrl(text) == "https://api.github.com/repos/c/d/issues/2"
  {
    var c1 := Capture("a", "b", "1");
    var c2 := Capture("c", "d", "2");
    BackToBackText(text, c1, c2);
    AdjacentReferences(c1, c2);
  }

  lemma BackToBackText(text: string, c1: Capture, c2: Capture)
    requires text == "a/b#1c/d#2"
    requires c1 == Capture("a", "b", "1") && c2 == Capture("c", "d", "2")
    ensures ValidCapture(c1) && ValidCapture(c2) && !IsAsciiDigit(Render(c2)[0])
    ensures text == Render(c1) + Render(c2)
    ensures ApiUrlFor(c2) == "https://api.github.com/repos/c/d/issues/2"
  {
    assert Render(c1) == "a/b#1";
    assert Render(c2) == "c/d#2";
  }

  /** A slash command's reference before form decoding: `/` and `#` percent-encoded, so the
      pattern finds nothing and the URL is empty. */
  lemma PercentEncodedReference(text: string)
    requires text == "cloudflare%2Fwrangler%231"
    ensures Captures(text) == []
    ensures ApiUrl(text) == ""
  {
    NoSlashNoMatch(text);
  }

  /** Every capture may be empty: `/#` on its own is one match with three empty captures, and
      the URL it gives ends in `repos///issues/`. */
  lemma EmptyReference(text: string)
    requires text == "/#"
    ensures Captures(text) == [Capture("", "", "")]
    ensures ApiUrl(text) == "https://api.github.com/repos///issues/"
  {
    var c := Capture("", "", "");
    assert Render(c) == text;
    RenderRoundTrip(c);
  }

  /** The same reference after form decoding names issue 1 of `cloudflare/wrangler`. */
  lemma DecodedReference(text: string)
    requires text == "cloudflare/wrangler#1"
    ensures ApiUrl(text) == "https://api.github.com/repos/cloudflare/wrangler/issues/1"
  {
    var c := Capture("cloudflare", "wrangler", "1");
    WranglerCaptureValid(c);
    WranglerText(c);
    RenderRoundTrip(c);
  }

  lemma WranglerCaptureValid(c: Capture)
    requires c == Capture("cloudflare", "wrangler", "1")
    ensures ValidCapture(c)
  {
    forall i | 0 <= i < 10
      ensures IsNameChar(c.owner[i])
    {
      assert i in {0, 1, 2, 3, 4, 5, 6, 7, 8, 9};
    }
    forall i | 0 <= i < 8
      ensures IsNameChar(c.repo[i])
    {
      assert i in {0, 1, 2, 3, 4, 5, 6, 7};
    }
  }

  lemma WranglerText(c: Capture)
    requires c == Capture("cloudflare", "wrangler", "1")
    ensures Render(c) == "cloudflare/wrangler#1"
    ensures ApiUrlFor(c) == "https://api.github.com/repos/cloudflare/wrangler/issues/1"
  {
  }
}
