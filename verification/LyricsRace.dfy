/** The race between lyrics providers of lyrics/lyrics.go: replies come in any order, and the race may be
    decided before all are in. */
module LyricsRace {
  import opened Wrappers
  import opened LyricsTypes

  datatype Provider = Provider(wordSync: bool)

  datatype Result = Result(found: bool, lyrics: Lyrics)

  datatype Response = Response(result: Option<Result>, err: Option<string>)

  /** The zero value that stands for a provider still out. */
  const NO_RESPONSE := Response(None, None)

  /** What one turn of the select receives. */
  datatype Event = Reply(index: nat, response: Response) | Grace | Timeout

  datatype Answer = Found(result: Result) | NoLyrics | Failed(err: string) | TimedOut

  predicate HasFound(r: Response) {
    r.result.Some? && r.result.value.found
  }

  /** Found, with a line whose words are timed one by one. */
  predicate ShowsWords(r: Response) {
    && r.result.Some? && r.result.value.found
    && exists k | 0 <= k < |r.result.value.lyrics.synced| :: r.result.value.lyrics.synced[k].words != []
  }

  /** Found, with lines, or as an instrumental. */
  predicate ShowsLines(r: Response) {
    && r.result.Some? && r.result.value.found
    && (r.result.value.lyrics.synced != [] || r.result.value.lyrics.instrumental)
  }

  function TierOf(r: Response): nat
    requires HasFound(r)
  {
    Tier(r.result.value.lyrics)
  }

  /** A source that does not offer word sync does not answer with it. */
  predicate Honest(p: Provider, r: Response) {
    ShowsWords(r) ==> p.wordSync
  }

  /** Replies come from the providers that were asked, each at most once. */
  ghost predicate Possible(n: nat, events: seq<Event>) {
    && (forall k | 0 <= k < |events| && events[k].Reply? :: events[k].index < n)
    && (forall j, k | 0 <= j < k < |events| && events[j].Reply? && events[k].Reply? ::
          events[j].index != events[k].index)
  }

  // ---------------------------------------------------------------- the best of what was found

  /** index holds the best result: the highest tier, the earliest provider among equals. */
  ghost predicate IsBest(results: seq<Response>, index: int) {
    if index < 0 then index == -1 && forall i | 0 <= i < |results| :: !HasFound(results[i])
    else && index < |results| && HasFound(results[index])
         && (forall i | 0 <= i < |results| && HasFound(results[i]) :: TierOf(results[i]) <= TierOf(results[index]))
         && (forall i | 0 <= i < index && HasFound(results[i]) :: TierOf(results[i]) < TierOf(results[index]))
  }

  function Best(results: seq<Response>): (index: int)
    ensures IsBest(results, index)
  {
    if results == [] then -1
    else
      var last := |results| - 1;
      var before := Best(results[..last]);
      assert forall i | 0 <= i < last :: results[..last][i] == results[i];
      if HasFound(results[last]) && (before < 0 || TierOf(results[last]) > TierOf(results[before])) then last
      else before
  }

  lemma BestIsUnique(results: seq<Response>, i: int, j: int)
    requires IsBest(results, i) && IsBest(results, j)
    ensures i == j
  {
  }

  function BestOf(results: seq<Response>): Answer
    requires Best(results) >= 0
  {
    Found(results[Best(results)].result.value)
  }

  /** The first reply of its kind. */
  predicate Earliest(all: seq<Response>, i: nat, kind: Response -> bool) {
    i < |all| && kind(all[i]) && forall j | 0 <= j < i :: !kind(all[j])
  }

  predicate Nobody(all: seq<Response>, kind: Response -> bool) {
    forall j | 0 <= j < |all| :: !kind(all[j])
  }

  predicate Answers(all: seq<Response>, i: nat, answer: Answer)
    requires i < |all|
  {
    all[i].result.Some? && answer == Found(all[i].result.value)
  }

  /** The best of some replies, in the fields of the lyrics: the earliest with words; if there is none, the earliest
      with lines or without vocals; if there is none, the earliest that was found at all; if nothing was found, no
      lyrics when some provider did not fail, and else the last provider's failure. */
  ghost predicate RightAnswer(all: seq<Response>, answer: Answer) {
    && (forall i | Earliest(all, i, ShowsWords) :: Answers(all, i, answer))
    && (Nobody(all, ShowsWords) ==> forall i | Earliest(all, i, ShowsLines) :: Answers(all, i, answer))
    && (Nobody(all, ShowsWords) && Nobody(all, ShowsLines) ==>
          forall i | Earliest(all, i, HasFound) :: Answers(all, i, answer))
    && (Nobody(all, HasFound) && all != [] ==>
          if exists i | 0 <= i < |all| :: all[i].err == None then answer == NoLyrics
          else answer == Failed(all[|all| - 1].err.value))
  }

  lemma TierTells(r: Response)
    requires HasFound(r)
    ensures TierOf(r) == if ShowsWords(r) then 2 else if ShowsLines(r) then 1 else 0
  {
  }

  lemma BestIsEarliest(all: seq<Response>)
    requires Best(all) >= 0
    ensures RightAnswer(all, BestOf(all))
  {
    var best := Best(all);
    forall i | 0 <= i < |all| && HasFound(all[i])
      ensures TierOf(all[i]) == if ShowsWords(all[i]) then 2 else if ShowsLines(all[i]) then 1 else 0
    {
      TierTells(all[i]);
    }
    assert HasFound(all[best]);
  }

  method BestFound(responses: seq<Response>) returns (best: Option<Result>, index: int)
    ensures index == Best(responses)
    ensures best == if index < 0 then None else responses[index].result
    ensures best.Some? ==> RightAnswer(responses, Found(best.value))
  {
    best, index := None, -1;
    for i := 0 to |responses|
      invariant -1 <= index < i && IsBest(responses[..i], index)
      invariant best == if index < 0 then None else responses[index].result
    {
      var result := responses[i].result;
      assert forall k | 0 <= k < i :: responses[..i][k] == responses[..i + 1][k];
      if result == None || !result.value.found { continue; }
      if best == None || Tier(result.value.lyrics) > Tier(best.value.lyrics) {
        best, index := result, i;
      }
    }
    assert responses[..|responses|] == responses;
    BestIsUnique(responses, index, Best(responses));
    if index >= 0 { BestIsEarliest(responses); }
  }

  /** A provider ahead is still out and could answer at the same tier. */
  predicate Blocked(providers: seq<Provider>, finished: seq<bool>, index: int, tier: nat)
    requires |providers| == |finished| && index < |finished|
  {
    exists i | 0 <= i < index :: !finished[i] && (tier < 2 || providers[i].wordSync)
  }

  /** A provider behind is still out and could answer at a higher tier. */
  predicate Outbid(providers: seq<Provider>, finished: seq<bool>, index: int, tier: nat)
    requires |providers| == |finished|
  {
    exists i | 0 <= i < |providers| :: index < i && !finished[i] && (tier == 0 || (tier == 1 && providers[i].wordSync))
  }

  /** Priority alone has a winner: the first provider that has not failed has found something. */
  predicate LeaderIn(finished: seq<bool>, results: seq<Response>)
    requires |finished| == |results|
  {
    exists i | 0 <= i < |results| :: finished[i] && HasFound(results[i]) && forall j | 0 <= j < i :: finished[j]
  }

  method BlockedAhead(providers: seq<Provider>, finished: seq<bool>, index: nat, tier: nat) returns (blocked: bool)
    requires |providers| == |finished| && index < |finished|
    ensures blocked == Blocked(providers, finished, index, tier)
  {
    for i := 0 to index
      invariant forall k | 0 <= k < i :: finished[k] || !(tier < 2 || providers[k].wordSync)
    {
      if !finished[i] && (tier < 2 || providers[i].wordSync) { return true; }
    }
    return false;
  }

  method UpgradePending(providers: seq<Provider>, finished: seq<bool>, index: nat, tier: nat) returns (pending: bool)
    requires |providers| == |finished| && index < |finished|
    ensures pending == Outbid(providers, finished, index, tier)
  {
    for i := index + 1 to |providers|
      invariant forall k | index < k < i :: finished[k] || !(tier == 0 || (tier == 1 && providers[k].wordSync))
    {
      if !finished[i] && (tier == 0 || (tier == 1 && providers[i].wordSync)) { return true; }
    }
    return false;
  }

  method LeaderFound(finished: seq<bool>, results: seq<Response>) returns (leader: bool)
    requires |finished| == |results|
    ensures leader == LeaderIn(finished, results)
  {
    for i := 0 to |results|
      invariant forall k | 0 <= k < i :: finished[k] && !HasFound(results[k])
    {
      if !finished[i] { return false; }
      if HasFound(results[i]) { return true; }
    }
    return false;
  }

  // ---------------------------------------------------------------- the race as a fold over what arrives

  datatype Board = Board(finished: seq<bool>, results: seq<Response>)

  predicate Fits(board: Board, n: nat) {
    |board.finished| == n == |board.results|
  }

  function Mark(board: Board, event: Event): Board {
    if event.Reply? && event.index < |board.finished| == |board.results| then
      Board(board.finished[event.index := true], board.results[event.index := event.response])
    else board
  }

  /** What the race knows after some events. */
  function Heard(n: nat, events: seq<Event>): (board: Board)
    ensures Fits(board, n)
  {
    if events == [] then Board(seq(n, _ => false), seq(n, _ => NO_RESPONSE))
    else Mark(Heard(n, events[..|events| - 1]), events[|events| - 1])
  }

  predicate AllIn(board: Board) {
    forall i | 0 <= i < |board.finished| :: board.finished[i]
  }

  /** Nobody still out could change the best result. */
  predicate Decided(providers: seq<Provider>, board: Board)
    requires Fits(board, |providers|)
  {
    var index := Best(board.results);
    && index >= 0
    && !Blocked(providers, board.finished, index, TierOf(board.results[index]))
    && !Outbid(providers, board.finished, index, TierOf(board.results[index]))
  }

  /** Where the loop ends without an answer: no lyrics if anyone said so, else the last error. */
  function FallThrough(results: seq<Response>): Answer
    requires |results| > 0
  {
    if exists i | 0 <= i < |results| :: results[i].err == None then NoLyrics
    else if results[|results| - 1].err.Some? then Failed(results[|results| - 1].err.value)
    else NoLyrics
  }

  /** The answer one event leads to, if it ends the race. */
  function React(providers: seq<Provider>, before: Board, event: Event): Option<Answer>
    requires |providers| > 0 && Fits(before, |providers|)
  {
    match event
    case Timeout => Some(if Best(before.results) >= 0 then BestOf(before.results) else TimedOut)
    case Grace =>
      if LeaderIn(before.finished, before.results) && Best(before.results) >= 0 then Some(BestOf(before.results))
      else None
    case Reply(_, _) =>
      var after := Mark(before, event);
      if Decided(providers, after) then Some(BestOf(after.results))
      else if AllIn(after) then Some(FallThrough(after.results))
      else None
  }

  /** The answer after some events, if there is one yet. */
  function Outcome(providers: seq<Provider>, events: seq<Event>): Option<Answer>
    requires |providers| > 0
  {
    if events == [] then None
    else
      var before := events[..|events| - 1];
      if Outcome(providers, before).Some? then Outcome(providers, before)
      else React(providers, Heard(|providers|, before), events[|events| - 1])
  }

  // ---------------------------------------------------------------- the loop

  function Remaining(finished: seq<bool>): nat {
    if finished == [] then 0
    else Remaining(finished[..|finished| - 1]) + if finished[|finished| - 1] then 0 else 1
  }

  lemma {:induction false} OneLessRemaining(finished: seq<bool>, i: nat)
    requires i < |finished| && !finished[i]
    ensures Remaining(finished[i := true]) == Remaining(finished) - 1
  {
    var last := |finished| - 1;
    if i == last {
      assert finished[i := true][..last] == finished[..last];
    } else {
      OneLessRemaining(finished[..last], i);
      assert finished[i := true][..last] == finished[..last][i := true];
    }
  }

  lemma {:induction false} NoneRemaining(finished: seq<bool>)
    ensures Remaining(finished) == 0 <==> forall i | 0 <= i < |finished| :: finished[i]
  {
    if finished != [] {
      var rest := finished[..|finished| - 1];
      NoneRemaining(rest);
      assert forall i | 0 <= i < |rest| :: rest[i] == finished[i];
    }
  }

  lemma {:induction false} AllRemain(n: nat)
    ensures Remaining(seq(n, _ => false)) == n
  {
    if n > 0 {
      AllRemain(n - 1);
      assert seq(n, _ => false)[..n - 1] == seq(n - 1, _ => false);
    }
  }

  lemma LeaderStays(finished: seq<bool>, results: seq<Response>, index: nat, response: Response)
    requires |finished| == |results| && index < |finished| && !finished[index] && LeaderIn(finished, results)
    ensures LeaderIn(finished[index := true], results[index := response])
  {
    var i :| 0 <= i < |results| && finished[i] && HasFound(results[i]) && forall j | 0 <= j < i :: finished[j];
    assert finished[index := true][i] && HasFound(results[index := response][i]);
  }

  lemma LeaderIsBehindBest(finished: seq<bool>, results: seq<Response>)
    requires |finished| == |results| && LeaderIn(finished, results)
    ensures Best(results) >= 0
  {
  }

  /** A provider's first reply is news. */
  lemma {:induction false} NotHeardYet(n: nat, events: seq<Event>, index: nat)
    requires index < n && forall k | 0 <= k < |events| && events[k].Reply? :: events[k].index != index
    ensures !Heard(n, events).finished[index]
  {
    if events != [] { NotHeardYet(n, events[..|events| - 1], index); }
  }

  lemma OutcomeStays(providers: seq<Provider>, events: seq<Event>, k: nat)
    requires |providers| > 0 && k <= |events| && Outcome(providers, events[..k]).Some?
    ensures Outcome(providers, events) == Outcome(providers, events[..k])
    decreases |events| - k
  {
    if k < |events| {
      assert events[..k + 1][..k] == events[..k];
      OutcomeStays(providers, events, k + 1);
    } else {
      assert events[..k] == events;
    }
  }

  lemma OneEvent(providers: seq<Provider>, events: seq<Event>, t: nat, board: Board)
    requires |providers| > 0 && t < |events| && board == Heard(|providers|, events[..t])
    requires Outcome(providers, events[..t]) == None
    ensures Outcome(providers, events[..t + 1]) == React(providers, board, events[t])
    ensures Heard(|providers|, events[..t + 1]) == Mark(board, events[t])
    ensures Outcome(providers, events[..t + 1]).Some?
            ==> Outcome(providers, events) == React(providers, board, events[t])
  {
    assert events[..t + 1][..t] == events[..t];
    if Outcome(providers, events[..t + 1]).Some? { OutcomeStays(providers, events, t + 1); }
  }

  /** A reply is news: one provider fewer is out, and a leader stays one. */
  lemma ReplyIsNews(n: nat, events: seq<Event>, t: nat, board: Board)
    requires Possible(n, events) && t < |events| && events[t].Reply? && board == Heard(n, events[..t])
    ensures events[t].index < n && !board.finished[events[t].index]
    ensures Remaining(Mark(board, events[t]).finished) == Remaining(board.finished) - 1
    ensures AllIn(Mark(board, events[t])) <==> Remaining(Mark(board, events[t]).finished) == 0
    ensures LeaderIn(board.finished, board.results)
            ==> LeaderIn(Mark(board, events[t]).finished, Mark(board, events[t]).results)
  {
    var index := events[t].index;
    NotHeardYet(n, events[..t], index);
    OneLessRemaining(board.finished, index);
    NoneRemaining(board.finished[index := true]);
    if LeaderIn(board.finished, board.results) {
      LeaderStays(board.finished, board.results, index, events[t].response);
    }
  }

  method Decline(results: seq<Response>) returns (outcome: Option<Answer>)
    requires |results| > 0
    ensures outcome == Some(FallThrough(results))
  {
    var lookupErr := None;
    for i := 0 to |results|
      invariant forall k | 0 <= k < i :: results[k].err.Some?
      invariant i > 0 ==> lookupErr == results[i - 1].err
    {
      if results[i].err == None { return Some(NoLyrics); }
      lookupErr := results[i].err;
    }
    return Some(Failed(lookupErr.value));
  }

  /** The select loop, fed with what each turn receives. A turn on a timer that is not set does not happen.
      No outcome means the race still waits when the events end. */
  method LookupProviders(providers: seq<Provider>, events: seq<Event>) returns (outcome: Option<Answer>)
    requires |providers| > 0 && Possible(|providers|, events)
    ensures outcome == Outcome(providers, events)
  {
    var n := |providers|;
    var finished := seq(n, _ => false);
    var results := seq(n, _ => NO_RESPONSE);
    var remaining := n;
    var grace := false;
    var t := 0;
    AllRemain(n);
    assert events[..0] == [];
    while remaining > 0 && t < |events|
      invariant 0 <= t <= |events|
      invariant Heard(n, events[..t]) == Board(finished, results) && |finished| == n == |results|
      invariant remaining == Remaining(finished)
      invariant grace == LeaderIn(finished, results)
      invariant remaining > 0 ==> Outcome(providers, events[..t]) == None
      invariant remaining == 0 ==> Outcome(providers, events) == Some(FallThrough(results))
    {
      var event := events[t];
      ghost var board := Board(finished, results);
      OneEvent(providers, events, t, board);
      t := t + 1;
      match event {
        case Timeout =>
          var best, _ := BestFound(results);
          return if best == None then Some(TimedOut) else Some(Found(best.value));
        case Grace =>
          if !grace { continue; }
          var best, _ := BestFound(results);
          LeaderIsBehindBest(finished, results);
          return Some(Found(best.value));
        case Reply(index, response) =>
          ReplyIsNews(n, events, t - 1, board);
          finished := finished[index := true];
          results := results[index := response];
          remaining := remaining - 1;
          assert Board(finished, results) == Mark(board, event);
      }
      var best, index := BestFound(results);
      if best == None {
        if LeaderIn(finished, results) { LeaderIsBehindBest(finished, results); }
        continue;
      }
      var blocked := BlockedAhead(providers, finished, index, Tier(best.value.lyrics));
      var pending := UpgradePending(providers, finished, index, Tier(best.value.lyrics));
      if !blocked && !pending {
        assert Decided(providers, Board(finished, results));
        return Some(Found(best.value));
      }
      if !grace { grace := LeaderFound(finished, results); }
    }
    if remaining > 0 {
      assert events[..t] == events;
      return None;
    }
    outcome := Decline(results);
  }

  // ---------------------------------------------------------------- what the race promises

  /** The providers' replies, all of them, and what waiting for them all would answer. */
  function Patient(all: seq<Response>): Answer
    requires |all| > 0
  {
    if Best(all) >= 0 then BestOf(all) else FallThrough(all)
  }

  /** The replies still to come fill the board up to all. */
  ghost predicate Completes(all: seq<Response>, board: Board) {
    && Fits(board, |all|)
    && forall i | 0 <= i < |all| :: board.results[i] == if board.finished[i] then all[i] else NO_RESPONSE
  }

  ghost predicate AllHonest(providers: seq<Provider>, all: seq<Response>) {
    |providers| == |all| && forall i | 0 <= i < |all| :: Honest(providers[i], all[i])
  }

  lemma PatientIsRight(all: seq<Response>)
    requires |all| > 0
    ensures RightAnswer(all, Patient(all))
  {
    if Best(all) >= 0 { BestIsEarliest(all); }
  }

  /** A race that is decided answers what waiting for everyone would, whatever is still to come. */
  lemma DecidedIsFinal(providers: seq<Provider>, all: seq<Response>, board: Board)
    requires AllHonest(providers, all) && Completes(all, board) && Decided(providers, board)
    ensures Best(all) == Best(board.results) && BestOf(all) == BestOf(board.results)
  {
  }

  const TIMED_LINE := Line(0.0, 0.0, "", [], "", false, 0)

  /** A reply at a chosen tier. */
  function ReplyAt(tier: nat): (r: Response)
    ensures tier <= 2 ==> HasFound(r) && TierOf(r) == tier
  {
    var line := if tier < 2 then TIMED_LINE else TIMED_LINE.(words := [Word(0.0, 0.0, "")]);
    var lyrics := Lyrics(if tier == 0 then [] else [line], "", false, "", "", "", 0, SourceUnknown, None);
    assert tier < 2 ==> forall i | 0 <= i < |lyrics.synced| :: lyrics.synced[i].words == [];
    assert tier == 2 ==> |lyrics.synced[0].words| > 0;
    Response(Some(Result(true, lyrics)), None)
  }

  /** And a race that is not decided is right to wait: some honest reply would change the best result. */
  lemma UndecidedCanChange(providers: seq<Provider>, board: Board) returns (i: nat, response: Response)
    requires Fits(board, |providers|) && Best(board.results) >= 0 && !Decided(providers, board)
    requires forall k | 0 <= k < |providers| && !board.finished[k] :: board.results[k] == NO_RESPONSE
    ensures i < |providers| && !board.finished[i] && Honest(providers[i], response)
    ensures Best(board.results[i := response]) == i != Best(board.results)
  {
    var index := Best(board.results);
    var tier := TierOf(board.results[index]);
    if Blocked(providers, board.finished, index, tier) {
      i :| 0 <= i < index && !board.finished[i] && (tier < 2 || providers[i].wordSync);
      response := ReplyAt(tier);
    } else {
      i :| 0 <= i < |providers| && index < i && !board.finished[i]
           && (tier == 0 || (tier == 1 && providers[i].wordSync));
      response := ReplyAt(tier + 1);
    }
    BestIsUnique(board.results[i := response], i, Best(board.results[i := response]));
  }

  /** The events are replies alone, each the provider's own. */
  ghost predicate OnlyReplies(all: seq<Response>, events: seq<Event>) {
    && Possible(|all|, events)
    && forall k | 0 <= k < |events| :: events[k].Reply? && events[k].response == all[events[k].index]
  }

  lemma {:induction false} HeardCompletes(all: seq<Response>, events: seq<Event>)
    requires OnlyReplies(all, events)
    ensures Completes(all, Heard(|all|, events))
  {
    if events != [] { HeardCompletes(all, events[..|events| - 1]); }
  }

  lemma {:induction false} HeardCounts(n: nat, events: seq<Event>)
    requires Possible(n, events) && forall k | 0 <= k < |events| :: events[k].Reply?
    ensures Remaining(Heard(n, events).finished) == n - |events|
  {
    if events == [] {
      AllRemain(n);
    } else {
      var before, last := events[..|events| - 1], events[|events| - 1];
      HeardCounts(n, before);
      NotHeardYet(n, before, last.index);
      OneLessRemaining(Heard(n, before).finished, last.index);
    }
  }

  lemma AllInCompletes(all: seq<Response>, board: Board)
    requires Completes(all, board) && AllIn(board)
    ensures board.results == all
  {
  }

  /** A reply that ends the race gives the patient answer. */
  lemma ReplyIsPatient(providers: seq<Provider>, all: seq<Response>, before: Board, event: Event)
    requires |providers| > 0 && AllHonest(providers, all) && Fits(before, |providers|) && event.Reply?
    requires Completes(all, Mark(before, event))
    ensures React(providers, before, event).Some? ==> React(providers, before, event).value == Patient(all)
  {
    var after := Mark(before, event);
    if Decided(providers, after) {
      DecidedIsFinal(providers, all, after);
    } else if AllIn(after) {
      AllInCompletes(all, after);
      assert Best(all) < 0;
    }
  }

  /** However the replies arrive, an answer before all are in is the answer of waiting for them all. */
  lemma {:induction false} EarlyIsPatient(providers: seq<Provider>, all: seq<Response>, events: seq<Event>)
    requires |providers| > 0 && AllHonest(providers, all) && OnlyReplies(all, events)
    ensures Outcome(providers, events).Some? ==> Outcome(providers, events).value == Patient(all)
  {
    if events != [] {
      var before := events[..|events| - 1];
      EarlyIsPatient(providers, all, before);
      HeardCompletes(all, events);
      ReplyIsPatient(providers, all, Heard(|all|, before), events[|events| - 1]);
    }
  }

  /** Without timers every order of the replies gives the one answer: the highest tier over all replies, the
      earliest provider among equals, and the same refusal when nobody found lyrics. */
  lemma OrderDoesNotMatter(providers: seq<Provider>, all: seq<Response>, events: seq<Event>)
    requires |providers| > 0 && AllHonest(providers, all) && OnlyReplies(all, events) && |events| == |all|
    ensures Outcome(providers, events) == Some(Patient(all)) && RightAnswer(all, Patient(all))
  {
    PatientIsRight(all);
    EarlyIsPatient(providers, all, events);
    HeardCounts(|all|, events);
    NoneRemaining(Heard(|all|, events).finished);
  }

  /** What a race that ends may have looked at when it ended. */
  ghost predicate AnsweredAt(providers: seq<Provider>, events: seq<Event>, k: nat)
    requires |providers| > 0
  {
    && k < |events|
    && Outcome(providers, events[..k]) == None
    && Outcome(providers, events[..k + 1]).Some?
  }

  /** Whatever ends the race, timers included: a found result is the best of all that was heard, the answers
      without lyrics come only when nothing was found, and the end of the grace period always brings one. */
  lemma AnswersAreBest(providers: seq<Provider>, events: seq<Event>, k: nat)
    requires |providers| > 0 && Possible(|providers|, events) && AnsweredAt(providers, events, k)
    ensures Outcome(providers, events).Some?
    ensures var answer, heard := Outcome(providers, events).value, Heard(|providers|, events[..k + 1]).results;
            && (answer.Found? <==> Best(heard) >= 0)
            && (answer.Found? ==> answer == BestOf(heard) && RightAnswer(heard, answer))
            && (events[k].Grace? ==> answer.Found?)
            && (answer.TimedOut? ==> events[k].Timeout?)
            && (answer.NoLyrics? || answer.Failed? ==> AllIn(Heard(|providers|, events[..k + 1])))
  {
    assert events[..k + 1][..k] == events[..k];
    OutcomeStays(providers, events, k + 1);
    var after := Heard(|providers|, events[..k + 1]);
    if Best(after.results) >= 0 { BestIsEarliest(after.results); }
    if AllIn(after) && Best(after.results) >= 0 { assert Decided(providers, after); }
  }

  /** Of the providers ahead, everyone has answered, and the first that was any good is this one. */
  predicate Wins(board: Board, i: nat) {
    && i < |board.finished| == |board.results|
    && board.results[i].result.Some? && board.results[i].result.value.found
    && forall j | 0 <= j <= i :: board.finished[j]
  }

  lemma WinnerLeads(board: Board)
    requires |board.finished| == |board.results|
    ensures LeaderIn(board.finished, board.results) <==> exists i :: Wins(board, i)
  {
    if i: nat :| Wins(board, i) { assert board.finished[i] && HasFound(board.results[i]); }
    if LeaderIn(board.finished, board.results) {
      var i :| 0 <= i < |board.results| && board.finished[i] && HasFound(board.results[i])
               && forall j | 0 <= j < i :: board.finished[j];
      assert Wins(board, i);
    }
  }

  lemma OneMoreEvent(providers: seq<Provider>, events: seq<Event>, event: Event)
    requires |providers| > 0 && Outcome(providers, events) == None
    ensures Outcome(providers, events + [event]) == React(providers, Heard(|providers|, events), event)
  {
    assert (events + [event])[..|events|] == events;
  }

  /** The end of the grace period ends the race exactly when priority alone has a winner; the timeout always does. */
  lemma GraceEndsExactly(providers: seq<Provider>, events: seq<Event>)
    requires |providers| > 0 && Outcome(providers, events) == None
    ensures Outcome(providers, events + [Grace]).Some? <==> exists i :: Wins(Heard(|providers|, events), i)
    ensures Outcome(providers, events + [Timeout]).Some?
  {
    OneMoreEvent(providers, events, Grace);
    OneMoreEvent(providers, events, Timeout);
    var heard := Heard(|providers|, events);
    WinnerLeads(heard);
    if LeaderIn(heard.finished, heard.results) { LeaderIsBehindBest(heard.finished, heard.results); }
  }

  /** The refusal does not depend on the order either: one provider that says "no lyrics" is enough. */
  lemma MissOutranksFailure(all: seq<Response>)
    requires |all| > 0 && Best(all) < 0
    ensures Patient(all).NoLyrics? <==> exists i | 0 <= i < |all| :: all[i].err == None
    ensures Patient(all).Failed? <==> forall i | 0 <= i < |all| :: all[i].err.Some?
  {
  }
}
