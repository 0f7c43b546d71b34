/** The decision logic of `mulerun_crawl/crawler/crawler.py` with the browser
    taken away: the infinite-scroll loop of `crawl` fed with what each scroll
    observed, the 1-based rank numbering of the extracted cards, and the two
    text clean-ups `_extract_agent_info` applies to a card's author and
    price. */
module Crawler {
  import opened Common

  // ---------------------------------------------------------------------
  // Infinite scrolling

  /** What one `_scroll_to_bottom` call sees: the number of agent cards
      before and after scrolling. */
  datatype ScrollObservation = ScrollObservation(before: nat, after: nat)

  /** `_scroll_to_bottom`'s verdict: the scroll found new content exactly
      when the card count after it is strictly greater than before it. */
  function HasNewContent(o: ScrollObservation): (r: bool)
    ensures r <==> o.before < o.after
  {
    o.after > o.before
  }

  /** The number of consecutive scrolls without new content that end with
      scroll `j` (0 when scroll `j` found new content). */
  function IdleRun(obs: seq<ScrollObservation>, j: int): nat
    requires j < |obs|
    decreases j
  {
    if j < 0 || HasNewContent(obs[j]) then 0 else IdleRun(obs, j - 1) + 1
  }

  /** Scroll `j` ends the loop: it found nothing new and completes a run of
      `threshold` such scrolls (any run at all when `threshold <= 1`). */
  predicate StopsAfter(obs: seq<ScrollObservation>, j: int, threshold: int)
    requires 0 <= j < |obs|
  {
    !HasNewContent(obs[j]) && IdleRun(obs, j) >= threshold
  }

  /** The loop's idle counter is reset exactly by a scroll on which the
      card count grew, and otherwise extends the run before it by one. */
  lemma NewContentResetsRun(obs: seq<ScrollObservation>, j: int)
    requires 0 <= j < |obs|
    ensures IdleRun(obs, j) == 0 <==> obs[j].before < obs[j].after
    ensures obs[j].after <= obs[j].before ==> IdleRun(obs, j) == IdleRun(obs, j - 1) + 1
  {
  }

  /** The `while scroll_count < max_scroll_attempts` loop of `crawl`, with
      `obs[k]` standing for what the `k`-th scroll sees. Returns the number
      of scrolls performed and whether the no-new-content threshold (rather
      than the attempt limit) ended the loop. The loop stops exactly after
      the first scroll that completes a run of `threshold` idle scrolls, and
      otherwise performs exactly `max_scroll_attempts` scrolls. */
  method ScrollUntilSettled(obs: seq<ScrollObservation>, maxScrollAttempts: int, threshold: int)
    returns (scrolls: nat, idleStop: bool)
    requires maxScrollAttempts <= |obs|
    ensures scrolls <= |obs| && (maxScrollAttempts <= 0 ==> scrolls == 0)
    ensures maxScrollAttempts > 0 ==> scrolls <= maxScrollAttempts
    ensures forall j :: 0 <= j < scrolls - 1 ==> !StopsAfter(obs, j, threshold)
    ensures idleStop <==> scrolls > 0 && StopsAfter(obs, scrolls - 1, threshold)
    ensures !idleStop ==> scrolls == if maxScrollAttempts > 0 then maxScrollAttempts else 0
  {
    var scrollCount := 0;
    var noNewContentCount := 0;
    scrolls, idleStop := 0, false;
    while scrollCount < maxScrollAttempts
      invariant 0 <= scrollCount <= |obs|
      invariant maxScrollAttempts > 0 ==> scrollCount <= maxScrollAttempts
      invariant maxScrollAttempts <= 0 ==> scrollCount == 0
      invariant scrolls == scrollCount && !idleStop
      invariant noNewContentCount == IdleRun(obs, scrollCount - 1)
      invariant forall j :: 0 <= j < scrollCount ==> !StopsAfter(obs, j, threshold)
    {
      var hasNewContent := HasNewContent(obs[scrollCount]);
      scrolls := scrolls + 1;
      if hasNewContent {
        noNewContentCount := 0;
      } else {
        noNewContentCount := noNewContentCount + 1;
        if noNewContentCount >= threshold {
          idleStop := true;
          break;
        }
      }
      scrollCount := scrollCount + 1;
    }
  }

  /** While the loop runs, no idle stretch grows past the threshold: with
      `ScrollUntilSettled`'s guarantee that no earlier scroll stopped the
      loop, a (threshold+1)-th consecutive idle scroll never happens. */
  lemma {:induction false} IdleRunBounded(obs: seq<ScrollObservation>, n: int, threshold: int, j: int)
    requires 1 <= threshold && 0 <= j < n <= |obs|
    requires forall i :: 0 <= i < n - 1 ==> !StopsAfter(obs, i, threshold)
    ensures IdleRun(obs, j) <= threshold
    decreases j
  {
    if j > 0 && !HasNewContent(obs[j]) {
      IdleRunBounded(obs, n, threshold, j - 1);
      assert !StopsAfter(obs, j - 1, threshold);
    }
  }

  /** When the first `threshold` scrolls all find nothing new, the loop stops
      after exactly that many (two idle scrolls in a row with threshold 2,
      not three). */
  lemma {:induction false} QuietPageStopsAtThreshold(obs: seq<ScrollObservation>, threshold: int)
    requires 1 <= threshold <= |obs|
    requires forall i :: 0 <= i < threshold ==> !HasNewContent(obs[i])
    ensures StopsAfter(obs, threshold - 1, threshold)
    ensures forall j :: 0 <= j < threshold - 1 ==> !StopsAfter(obs, j, threshold)
  {
    QuietRun(obs, threshold, threshold - 1);
    forall j | 0 <= j < threshold - 1 ensures !StopsAfter(obs, j, threshold) {
      QuietRun(obs, threshold, j);
    }
  }

  lemma {:induction false} QuietRun(obs: seq<ScrollObservation>, n: int, j: int)
    requires 0 <= j < n <= |obs|
    requires forall i :: 0 <= i < n ==> !HasNewContent(obs[i])
    ensures IdleRun(obs, j) == j + 1
    decreases j
  {
    if j > 0 {
      QuietRun(obs, n, j - 1);
    }
  }

  // ---------------------------------------------------------------------
  // Rank numbering

  /** The dictionary `_extract_agent_info` builds for one card. */
  datatype AgentInfo = AgentInfo(
    link: string,
    name: string,
    description: string,
    avatarUrl: string,
    price: string,
    author: string)

  /** A card's information with the rank `crawl` adds to it. */
  datatype RankedAgent = RankedAgent(info: AgentInfo, rank: nat)

  function CountExtracted(extracted: seq<Option<AgentInfo>>): (n: nat)
    ensures n <= |extracted|
  {
    if extracted == [] then 0
    else CountExtracted(extracted[..|extracted| - 1]) + (if extracted[|extracted| - 1].Some? then 1 else 0)
  }

  /** The agents `crawl` keeps from the extraction results, in card order,
      each with the 1-based position of its card as rank. */
  function Ranked(extracted: seq<Option<AgentInfo>>): seq<RankedAgent> {
    if extracted == [] then []
    else
      var last := extracted[|extracted| - 1];
      Ranked(extracted[..|extracted| - 1])
        + (if last.Some? then [RankedAgent(last.value, |extracted|)] else [])
  }

  /** The numbering loop of `crawl`: `extracted[k]` is the result of
      extracting the `k`-th matched card (`None` when extraction failed). */
  method AssignRanks(extracted: seq<Option<AgentInfo>>) returns (agents: seq<RankedAgent>)
    ensures agents == Ranked(extracted)
  {
    agents := [];
    for idx := 1 to |extracted| + 1
      invariant agents == Ranked(extracted[..idx - 1])
    {
      assert extracted[..idx][..idx - 1] == extracted[..idx - 1];
      var agentInfo := extracted[idx - 1];
      if agentInfo.Some? {
        agents := agents + [RankedAgent(agentInfo.value, idx)];
      }
    }
    assert extracted[..|extracted|] == extracted;
  }

  /** One agent per successful extraction; each rank points back at the card
      the agent came from, and ranks strictly increase. */
  lemma {:induction false} RankedNumbering(extracted: seq<Option<AgentInfo>>)
    ensures |Ranked(extracted)| == CountExtracted(extracted)
    ensures forall k :: 0 <= k < |Ranked(extracted)| ==>
      1 <= Ranked(extracted)[k].rank <= |extracted|
      && extracted[Ranked(extracted)[k].rank - 1] == Some(Ranked(extracted)[k].info)
    ensures forall j, k :: 0 <= j < k < |Ranked(extracted)| ==>
      Ranked(extracted)[j].rank < Ranked(extracted)[k].rank
  {
    if extracted != [] {
      RankedNumbering(extracted[..|extracted| - 1]);
    }
  }

  /** No successful extraction is dropped: failures only leave gaps. */
  lemma {:induction false} RankedComplete(extracted: seq<Option<AgentInfo>>, i: int)
    requires 0 <= i < |extracted| && extracted[i].Some?
    ensures exists k :: 0 <= k < |Ranked(extracted)| && Ranked(extracted)[k] == RankedAgent(extracted[i].value, i + 1)
  {
    var init := extracted[..|extracted| - 1];
    var r := Ranked(extracted);
    if i == |extracted| - 1 {
      assert r[|r| - 1] == RankedAgent(extracted[i].value, i + 1);
    } else {
      RankedComplete(init, i);
      var k :| 0 <= k < |Ranked(init)| && Ranked(init)[k] == RankedAgent(init[i].value, i + 1);
      assert r[k] == Ranked(init)[k];
    }
  }

  /** When every card is extracted the ranks are exactly 1..n. */
  lemma {:induction false} RankedWithoutFailures(extracted: seq<Option<AgentInfo>>)
    requires forall i :: 0 <= i < |extracted| ==> extracted[i].Some?
    ensures |Ranked(extracted)| == |extracted|
    ensures forall k :: 0 <= k < |extracted| ==> Ranked(extracted)[k] == RankedAgent(extracted[k].value, k + 1)
  {
    if extracted != [] {
      RankedWithoutFailures(extracted[..|extracted| - 1]);
    }
  }

  // ---------------------------------------------------------------------
  // Author: `author_text.replace('by ', '').strip()` when it starts with "by "

  predicate StartsWith(s: string, prefix: string) {
    |prefix| <= |s| && s[..|prefix|] == prefix
  }

  /** `pattern` occurs in `s` starting at index `i`. */
  predicate OccursAt(s: string, pattern: string, i: int) {
    0 <= i && i + |pattern| <= |s| && s[i..i + |pattern|] == pattern
  }

  /** Python's `s.replace(pattern, '')`: every leftmost non-overlapping
      occurrence removed, scanning from the left. */
  function RemoveAll(s: string, pattern: string): (r: string)
    requires |pattern| > 0
    ensures |r| <= |s|
    decreases |s|
  {
    if |s| < |pattern| then s
    else if StartsWith(s, pattern) then RemoveAll(s[|pattern|..], pattern)
    else [s[0]] + RemoveAll(s[1..], pattern)
  }

  lemma {:induction false} RemoveAllAbsent(s: string, pattern: string)
    requires |pattern| > 0
    requires forall i :: !OccursAt(s, pattern, i)
    ensures RemoveAll(s, pattern) == s
    decreases |s|
  {
    if |s| >= |pattern| {
      assert !OccursAt(s, pattern, 0);
      forall i ensures !OccursAt(s[1..], pattern, i) {
        if 0 <= i && i + |pattern| <= |s| - 1 {
          assert !OccursAt(s, pattern, i + 1);
          assert s[1..][i..i + |pattern|] == s[i + 1..i + 1 + |pattern|];
        }
      }
      RemoveAllAbsent(s[1..], pattern);
    }
  }

  /** The author as `_extract_agent_info` computes it. */
  function NormalizeAuthor(text: string): (r: string)
    ensures !StartsWith(text, "by ") ==> r == text
    ensures StartsWith(text, "by ") ==> |r| <= |text| - 3 && (r == [] || (!IsSpace(r[0]) && !IsSpace(r[|r| - 1])))
  {
    if StartsWith(text, "by ") then
      assert text == "by " + text[3..];
      Strip(RemoveAll(text, "by "))
    else text
  }

  /** Removing only the leading "by ", the evident purpose of the clean-up. */
  function AuthorName(text: string): (r: string)
    ensures !StartsWith(text, "by ") ==> r == text
    ensures StartsWith(text, "by ") ==> r == Strip(text[3..])
  {
    if StartsWith(text, "by ") then Strip(text[3..]) else text
  }

  /** Whatever the author is called, the corrected clean-up recovers the
      name from its "by <name>" rendering. */
  lemma AuthorNameRoundTrip(name: string)
    requires name == [] || (!IsSpace(name[0]) && !IsSpace(name[|name| - 1]))
    ensures AuthorName("by " + name) == name
  {
    assert ("by " + name)[3..] == name;
    StripOfStripped(name);
  }

  /** The source's clean-up agrees with it whenever the name itself holds no
      "by ". */
  lemma NormalizeAuthorRoundTrip(name: string)
    requires name == [] || (!IsSpace(name[0]) && !IsSpace(name[|name| - 1]))
    requires forall i :: !OccursAt(name, "by ", i)
    ensures NormalizeAuthor("by " + name) == name
  {
    var text := "by " + name;
    assert text[3..] == name;
    RemoveAllAbsent(name, "by ");
    StripOfStripped(name);
  }

  lemma RemoveAllKeeps(c: char, s: string, pattern: string)
    requires |pattern| > 0 && !StartsWith([c] + s, pattern)
    ensures RemoveAll([c] + s, pattern) == [c] + RemoveAll(s, pattern)
  {
    assert ([c] + s)[1..] == s;
  }

  lemma RemoveAllDrops(s: string, pattern: string)
    requires |pattern| > 0
    ensures RemoveAll(pattern + s, pattern) == RemoveAll(s, pattern)
  {
    assert (pattern + s)[..|pattern|] == pattern;
    assert (pattern + s)[|pattern|..] == s;
  }

  /** A "by " two characters into a name is removed along with the prefix. */
  lemma RemoveAllAfterTwo(a: char, b: char, p: string, rest: string)
    requires p == "by " && RemoveAll(rest, p) == rest
    ensures RemoveAll([a, b] + p + rest, p) == [a, b] + rest
  {
    var t1 := p + rest;
    var t2 := [b] + t1;
    var t3 := [a] + t2;
    assert t3 == [a, b] + p + rest;
    RemoveAllDrops(rest, p);
    assert t2[1] == 'b';
    assert !StartsWith(t2, p) by { assert t2[..3][1] != p[1]; }
    RemoveAllKeeps(b, t1, p);
    assert t3[2] == 'b';
    assert !StartsWith(t3, p) by { assert t3[..3][2] != p[2]; }
    RemoveAllKeeps(a, t2, p);
    assert [a] + ([b] + rest) == [a, b] + rest;
  }

  /** ... but mangles every name that holds "by " of its own: "by Abby
      Smith" (`a`, `b`, `rest` = 'A', 'b', "Smith") comes out as "AbSmith",
      where the corrected clean-up gives "Abby Smith". */
  lemma NormalizeAuthorMangles(a: char, b: char, rest: string)
    requires !IsSpace(a) && rest != [] && !IsSpace(rest[|rest| - 1])
    requires forall i :: !OccursAt(rest, "by ", i)
    ensures NormalizeAuthor("by " + [a, b] + "by " + rest) == [a, b] + rest
    ensures AuthorName("by " + [a, b] + "by " + rest) == [a, b] + "by " + rest
  {
    var p := "by ";
    var name := [a, b] + p + rest;
    var text := p + name;
    assert "by " + [a, b] + "by " + rest == text;
    RemoveAllAbsent(rest, p);
    RemoveAllAfterTwo(a, b, p, rest);
    RemoveAllDrops(name, p);
    assert text[..3] == p;
    assert text[3..] == name;
    StripOfStripped([a, b] + rest);
    StripOfStripped(name);
  }

  // ---------------------------------------------------------------------
  // Price: `re.search(r'(\d+)\s*/.*?run', price_text)`

  predicate AllSpace(s: string) {
    forall k :: 0 <= k < |s| ==> IsSpace(s[k])
  }

  /** `s[i..e]` is a match of the pattern whose digits end at `d` and whose
      slash is at `w`: digits, optional whitespace, a slash, any characters
      but a line break, then "run". */
  predicate PriceMatchWith(s: string, i: int, d: int, w: int, e: int) {
    && 0 <= i < d <= w && w + 1 <= e - 3 && e <= |s|
    && AllDigits(s[i..d]) && AllSpace(s[d..w]) && s[w] == '/'
    && NoNewline(s[w + 1..e - 3]) && s[e - 3..e] == "run"
  }

  ghost predicate IsPriceMatch(s: string, i: int, e: int) {
    exists d, w :: PriceMatchWith(s, i, d, w, e)
  }

  /** The match `re.search` reports: the leftmost start, and at that start
      the shortest match (the only one `.*?` can give, the greedy parts
      being forced). */
  ghost predicate IsFirstPriceMatch(s: string, i: int, e: int) {
    && IsPriceMatch(s, i, e)
    && (forall i', e' :: 0 <= i' < i ==> !IsPriceMatch(s, i', e'))
    && (forall e' :: e' < e ==> !IsPriceMatch(s, i, e'))
  }

  function DigitsEnd(s: string, i: nat): (j: nat)
    requires i <= |s|
    ensures i <= j <= |s| && AllDigits(s[i..j]) && (j == |s| || !IsDigit(s[j]))
    decreases |s| - i
  {
    if i < |s| && IsDigit(s[i]) then DigitsEnd(s, i + 1) else i
  }

  function SpacesEnd(s: string, i: nat): (j: nat)
    requires i <= |s|
    ensures i <= j <= |s| && AllSpace(s[i..j]) && (j == |s| || !IsSpace(s[j]))
    decreases |s| - i
  {
    if i < |s| && IsSpace(s[i]) then SpacesEnd(s, i + 1) else i
  }

  /** The lazy `.*?run` from position `k`: the end of the first "run" that
      is reached before any line break. */
  function RunEnd(s: string, k: nat): (r: Option<nat>)
    requires k <= |s|
    ensures r.Some? ==> k + 3 <= r.value <= |s| && s[r.value - 3..r.value] == "run" && NoNewline(s[k..r.value - 3])
    decreases |s| - k
  {
    if k + 3 <= |s| && s[k..k + 3] == "run" then Some(k + 3)
    else if k < |s| && s[k] != '\n' then
      match RunEnd(s, k + 1)
      case None => None
      case Some(e) => assert s[k..e - 3] == [s[k]] + s[k + 1..e - 3]; Some(e)
    else None
  }

  lemma {:induction false} RunEndFindsFirst(s: string, k: nat, e: int)
    requires k + 3 <= e <= |s| && s[e - 3..e] == "run" && NoNewline(s[k..e - 3])
    ensures RunEnd(s, k).Some? && RunEnd(s, k).value <= e
    decreases e - k
  {
    if !(s[k..k + 3] == "run") {
      assert s[k] == s[k..e - 3][0];
      assert s[k + 1..e - 3] == s[k..e - 3][1..];
      RunEndFindsFirst(s, k + 1, e);
    }
  }

  /** The end of the match starting at `i`, if any. */
  function MatchAt(s: string, i: nat): Option<nat>
    requires i <= |s|
  {
    if i < |s| && IsDigit(s[i]) then MatchFromSlash(s, SpacesEnd(s, DigitsEnd(s, i))) else None
  }

  /** The rest of a match once the digits and whitespace are consumed:
      a slash at `w`, then the lazy `.*?run`. */
  function MatchFromSlash(s: string, w: nat): Option<nat>
    requires w <= |s|
  {
    if w < |s| && s[w] == '/' then RunEnd(s, w + 1) else None
  }

  lemma MatchAtSound(s: string, i: nat)
    requires i <= |s| && MatchAt(s, i).Some?
    ensures IsPriceMatch(s, i, MatchAt(s, i).value)
  {
    var d := DigitsEnd(s, i);
    var w := SpacesEnd(s, d);
    assert d > i by { assert IsDigit(s[i]); }
    assert PriceMatchWith(s, i, d, w, MatchAt(s, i).value);
  }

  lemma {:induction false} DigitsEndAt(s: string, i: nat, d: nat)
    requires i <= d <= |s| && AllDigits(s[i..d]) && (d == |s| || !IsDigit(s[d]))
    ensures DigitsEnd(s, i) == d
    decreases d - i
  {
    if i < d {
      assert IsDigit(s[i]) by { assert s[i] == s[i..d][0]; }
      assert s[i + 1..d] == s[i..d][1..];
      DigitsEndAt(s, i + 1, d);
    }
  }

  lemma {:induction false} SpacesEndAt(s: string, i: nat, w: nat)
    requires i <= w <= |s| && AllSpace(s[i..w]) && (w == |s| || !IsSpace(s[w]))
    ensures SpacesEnd(s, i) == w
    decreases w - i
  {
    if i < w {
      assert IsSpace(s[i]) by { assert s[i] == s[i..w][0]; }
      assert s[i + 1..w] == s[i..w][1..];
      SpacesEndAt(s, i + 1, w);
    }
  }

  /** Any match at `i` is at least as long as the one `MatchAt` finds. */
  lemma MatchAtComplete(s: string, i: nat, e: int)
    requires i <= |s| && IsPriceMatch(s, i, e)
    ensures MatchAt(s, i).Some? && MatchAt(s, i).value <= e
  {
    var d, w :| PriceMatchWith(s, i, d, w, e);
    MatchWithFound(s, i, d, w, e);
  }

  lemma MatchWithFound(s: string, i: nat, d: int, w: int, e: int)
    requires PriceMatchWith(s, i, d, w, e)
    ensures MatchAt(s, i).Some? && MatchAt(s, i).value <= e
  {
    GreedyRunsEndAt(s, i, d, w, e);
    RunEndFindsFirst(s, w + 1, e);
    assert MatchFromSlash(s, w) == RunEnd(s, w + 1);
  }

  /** The digit and whitespace runs of a match are exactly the greedy ones. */
  lemma GreedyRunsEndAt(s: string, i: nat, d: int, w: int, e: int)
    requires PriceMatchWith(s, i, d, w, e)
    ensures IsDigit(s[i]) && DigitsEnd(s, i) == d && SpacesEnd(s, d) == w
  {
    assert IsDigit(s[i]) by { assert s[i] == s[i..d][0]; }
    // neither greedy run can stop early or run past where the match has it
    assert !IsDigit(s[d]) by {
      if d < w { assert IsSpace(s[d]) by { assert s[d] == s[d..w][0]; } }
    }
    DigitsEndAt(s, i, d);
    SpacesEndAt(s, d, w);
  }

  /** `re.search`: the first start position from `i` on with a match. */
  function SearchPrice(s: string, i: nat): (r: Option<(nat, nat)>)
    requires i <= |s|
    ensures r.Some? ==> i <= r.value.0 < |s| && MatchAt(s, r.value.0) == Some(r.value.1)
    ensures r.Some? ==> forall k :: i <= k < r.value.0 ==> MatchAt(s, k).None?
    ensures r.None? ==> forall k :: i <= k <= |s| ==> MatchAt(s, k).None?
    decreases |s| - i
  {
    if i == |s| then None
    else match MatchAt(s, i)
      case Some(e) => Some((i, e))
      case None => SearchPrice(s, i + 1)
  }

  /** The price as `_extract_agent_info` computes it: the text `re.search`
      matches, or the raw text when nothing matches. Either way a slice of
      the input. */
  function ExtractPrice(text: string): (r: string)
    ensures exists i, j :: 0 <= i <= j <= |text| && r == text[i..j]
    ensures (forall i, e :: !IsPriceMatch(text, i, e)) ==> r == text
    ensures (exists i, e :: IsPriceMatch(text, i, e)) ==>
      exists i, e :: IsFirstPriceMatch(text, i, e) && r == text[i..e]
  {
    match SearchPrice(text, 0)
    case Some((i, e)) =>
      MatchAtSound(text, i);
      assert IsFirstPriceMatch(text, i, e) by {
        forall i', e' | 0 <= i' < i ensures !IsPriceMatch(text, i', e') {
          if IsPriceMatch(text, i', e') { MatchAtComplete(text, i', e'); }
        }
        forall e' | e' < e ensures !IsPriceMatch(text, i, e') {
          if IsPriceMatch(text, i, e') { MatchAtComplete(text, i, e'); }
        }
      }
      text[i..e]
    case None =>
      assert forall i, e :: !IsPriceMatch(text, i, e) by {
        forall i, e ensures !IsPriceMatch(text, i, e) {
          if IsPriceMatch(text, i, e) {
            assert 0 <= i < |text|;
            MatchAtComplete(text, i, e);
          }
        }
      }
      assert text == text[0..|text|];
      text
  }
}
