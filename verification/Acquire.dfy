/**
 * Submitting releases to downloaders whose answers may be lost. `matches` is task matching, `judge` is the claim
 * resolution of an observed task against the wanted Entry and episode; both are parameters of the model.
 */
module Acquire {
  import opened Options
  import opened Sets

  /** `origin` records which acquisition an accepted task was added for; other actors' tasks have none. */
  datatype Task = Task(id: string, origin: Option<string>)

  /** One downloader as the run saw it. A failed bulk listing leaves no trace; a failed plain listing does. */
  datatype Observation = Seen(tasks: seq<Task>) | Unseen | Broken

  /** What the claim of an observed task says about the wanted Entry and episode. */
  datatype Judgement = Unrelated | FilesUnreadable | Unclear | SameEpisode | OtherEpisode

  datatype Verdict = Refuse | AlreadyThere(task: Task) | Duplicate(task: Task) | Submit

  /**
   * One wanted acquisition. `ready` says that the downloader accepts submissions and that a save path is known.
   */
  datatype Want = Want(id: string, matches: (string, Task) -> bool, judge: (string, Task) -> Judgement, ready: bool)

  function Matching(w: Want, tasks: seq<Task>): seq<Task> {
    if tasks == [] then []
    else Matching(w, tasks[..|tasks| - 1]) + if w.matches(w.id, tasks[|tasks| - 1]) then [tasks[|tasks| - 1]] else []
  }

  lemma {:induction false} MatchingMember(w: Want, tasks: seq<Task>, t: Task)
    ensures t in Matching(w, tasks) <==> t in tasks && w.matches(w.id, t)
  {
    if tasks != [] {
      var n := |tasks| - 1;
      MatchingMember(w, tasks[..n], t);
      assert tasks == tasks[..n] + [tasks[n]];
    }
  }

  /** The first observed task of a downloader that decides the matter. */
  function JudgeTasks(w: Want, client: string, tasks: seq<Task>): Option<Verdict> {
    if tasks == [] then None
    else
      match w.judge(client, tasks[0])
      case FilesUnreadable => Some(Refuse)
      case Unclear => Some(Refuse)
      case SameEpisode => if w.matches(w.id, tasks[0]) then JudgeTasks(w, client, tasks[1..])
        else Some(Duplicate(tasks[0]))
      case Unrelated => JudgeTasks(w, client, tasks[1..])
      case OtherEpisode => JudgeTasks(w, client, tasks[1..])
  }

  /** Looks for the same episode in every downloader, in the given order. */
  function Scan(w: Want, observed: map<string, Observation>, order: seq<string>): Verdict {
    if order == [] then Submit
    else if order[0] !in observed then Scan(w, observed, order[1..])
    else
      match observed[order[0]]
      case Unseen => Scan(w, observed, order[1..])
      case Broken => Refuse
      case Seen(tasks) => match JudgeTasks(w, order[0], tasks) case Some(v) => v
        case None => Scan(w, observed, order[1..])
  }

  function Decide(w: Want, client: string, observed: map<string, Observation>, order: seq<string>): Verdict {
    if client !in observed || !observed[client].Seen? then Refuse
    else
      var own := Matching(w, observed[client].tasks);
      if |own| > 1 then Refuse
      else if |own| == 1 then AlreadyThere(own[0])
      else Scan(w, observed, order)
  }

  /** The task neither covers the wanted episode nor leaves its claim open, or it is the wanted acquisition itself. */
  predicate Harmless(w: Want, client: string, t: Task) {
    w.judge(client, t) == Unrelated || w.judge(client, t) == OtherEpisode ||
      (w.judge(client, t) == SameEpisode && w.matches(w.id, t))
  }

  lemma {:induction false} JudgeTasksNone(w: Want, client: string, tasks: seq<Task>)
    ensures JudgeTasks(w, client, tasks) == None <==> forall t :: t in tasks ==> Harmless(w, client, t)
    ensures JudgeTasks(w, client, tasks) != Some(Submit)
  {
    if tasks != [] {
      JudgeTasksNone(w, client, tasks[1..]);
      assert forall t :: t in tasks <==> t == tasks[0] || t in tasks[1..];
      if !Harmless(w, client, tasks[0]) {
        assert JudgeTasks(w, client, tasks).Some?;
      } else {
        assert JudgeTasks(w, client, tasks) == JudgeTasks(w, client, tasks[1..]);
      }
    }
  }

  ghost predicate Clear(w: Want, client: string, o: Observation) {
    o != Broken && (o.Seen? ==> forall t :: t in o.tasks ==> Harmless(w, client, t))
  }

  lemma {:induction false} ScanSubmits(w: Want, observed: map<string, Observation>, order: seq<string>)
    ensures Scan(w, observed, order) == Submit <==> forall c :: c in order && c in observed ==> Clear(w, c, observed[c])
  {
    if order != [] {
      ScanSubmits(w, observed, order[1..]);
      assert order == [order[0]] + order[1..];
      if order[0] in observed && observed[order[0]].Seen? {
        JudgeTasksNone(w, order[0], observed[order[0]].tasks);
      }
    }
  }

  /** The chosen downloader shows no task of the acquisition, and nothing any downloader shows speaks against it. */
  ghost predicate Unhindered(w: Want, client: string, observed: map<string, Observation>) {
    && client in observed && observed[client].Seen?
    && (forall t :: t in observed[client].tasks ==> !w.matches(w.id, t))
    && forall c :: c in observed ==> Clear(w, c, observed[c])
  }

  /** The downloader shows a task of another acquisition for the wanted episode. */
  ghost predicate Covers(w: Want, client: string, o: Observation, t: Task) {
    o.Seen? && t in o.tasks && w.judge(client, t) == SameEpisode && !w.matches(w.id, t)
  }

  lemma {:induction false} JudgedDuplicate(w: Want, client: string, tasks: seq<Task>)
    ensures var v := JudgeTasks(w, client, tasks);
            v.Some? ==> !v.value.AlreadyThere? && (v.value.Duplicate? ==> Covers(w, client, Seen(tasks), v.value.task))
  {
    if tasks != [] {
      JudgedDuplicate(w, client, tasks[1..]);
      assert tasks == [tasks[0]] + tasks[1..];
    }
  }

  /** A duplicate verdict names a task that covers the wanted episode. */
  lemma {:induction false} ScanDuplicate(w: Want, observed: map<string, Observation>, order: seq<string>)
    ensures var v := Scan(w, observed, order);
            !v.AlreadyThere? && (v.Duplicate? ==> exists c :: c in observed && Covers(w, c, observed[c], v.task))
  {
    if order != [] {
      ScanDuplicate(w, observed, order[1..]);
      if order[0] in observed && observed[order[0]].Seen? {
        JudgedDuplicate(w, order[0], observed[order[0]].tasks);
      }
    }
  }

  /**
   * An Add is issued if and only if the chosen downloader was observed without a matching task, no other listing
   * is known to have failed, and every observed task is harmless. In particular the order of the downloaders does
   * not matter, and no Add follows a failed observation of the chosen downloader.
   */
  lemma SubmitIff(w: Want, client: string, observed: map<string, Observation>, order: seq<string>)
    requires forall c :: c in order <==> c in observed
    ensures Decide(w, client, observed, order) == Submit <==> Unhindered(w, client, observed)
  {
    ScanSubmits(w, observed, order);
    if client in observed && observed[client].Seen? {
      var own := Matching(w, observed[client].tasks);
      forall t ensures t in own <==> t in observed[client].tasks && w.matches(w.id, t) {
        MatchingMember(w, observed[client].tasks, t);
      }
      if own != [] {
        assert own[0] in own;
      }
    }
  }

  /** The `i`th task is the only one of the acquisition. */
  ghost predicate SoleMatch(w: Want, tasks: seq<Task>, i: nat) {
    i < |tasks| && w.matches(w.id, tasks[i]) && forall j :: 0 <= j < |tasks| && j != i ==> !w.matches(w.id, tasks[j])
  }

  lemma {:induction false} MatchingNone(w: Want, tasks: seq<Task>)
    ensures Matching(w, tasks) == [] <==> forall j :: 0 <= j < |tasks| ==> !w.matches(w.id, tasks[j])
  {
    if tasks != [] {
      MatchingNone(w, tasks[..|tasks| - 1]);
    }
  }

  lemma SoleSnoc(w: Want, tasks: seq<Task>, i: nat)
    requires tasks != []
    ensures var n := |tasks| - 1;
            SoleMatch(w, tasks, i) <==>
              if i == n then w.matches(w.id, tasks[n]) && forall j :: 0 <= j < n ==> !w.matches(w.id, tasks[..n][j])
              else SoleMatch(w, tasks[..n], i) && !w.matches(w.id, tasks[n])
  {
    var n := |tasks| - 1;
    assert forall j :: 0 <= j < n ==> tasks[..n][j] == tasks[j];
  }

  lemma {:induction false} MatchingSole(w: Want, tasks: seq<Task>)
    ensures |Matching(w, tasks)| == 1 <==> exists i: nat :: SoleMatch(w, tasks, i)
    ensures forall i: nat :: SoleMatch(w, tasks, i) ==> Matching(w, tasks) == [tasks[i]]
  {
    if tasks != [] {
      var n := |tasks| - 1;
      var before := tasks[..n];
      MatchingSole(w, before);
      MatchingNone(w, before);
      assert Matching(w, tasks) == Matching(w, before) + if w.matches(w.id, tasks[n]) then [tasks[n]] else [];
      hide Matching;
      hide SoleMatch;
      SoleSnoc(w, tasks, n);
      forall i: nat | i != n
        ensures SoleMatch(w, tasks, i) <==> SoleMatch(w, before, i) && !w.matches(w.id, tasks[n])
        ensures SoleMatch(w, tasks, i) ==> Matching(w, tasks) == [tasks[i]]
      {
        SoleSnoc(w, tasks, i);
        SoleInside(w, before, i);
      }
    }
  }

  lemma SoleInside(w: Want, tasks: seq<Task>, i: nat)
    ensures SoleMatch(w, tasks, i) ==> i < |tasks|
  {
  }

  /** The downloader's listing failed noticeably, or shows a task whose claim is unreadable or unclear. */
  ghost predicate Doubtful(w: Want, client: string, o: Observation) {
    || o == Broken
    || (o.Seen? && exists t :: t in o.tasks && (w.judge(client, t) == Unclear || w.judge(client, t) == FilesUnreadable))
  }

  lemma {:induction false} JudgedRefuse(w: Want, client: string, tasks: seq<Task>)
    ensures JudgeTasks(w, client, tasks) == Some(Refuse) ==> Doubtful(w, client, Seen(tasks))
  {
    if tasks != [] {
      JudgedRefuse(w, client, tasks[1..]);
      assert tasks == [tasks[0]] + tasks[1..];
    }
  }

  lemma {:induction false} ScanRefuse(w: Want, observed: map<string, Observation>, order: seq<string>)
    ensures Scan(w, observed, order) == Refuse ==> exists c :: c in observed && Doubtful(w, c, observed[c])
  {
    if order != [] {
      ScanRefuse(w, observed, order[1..]);
      if order[0] in observed && observed[order[0]].Seen? {
        JudgedRefuse(w, order[0], observed[order[0]].tasks);
      }
    }
  }

  /**
   * What the checks before Add decide, in any order of the downloaders. The acquisition is already there exactly if the
   * chosen downloader shows one task of it; with several, or without a listing, it is refused. If there is none, a
   * refusal has a doubtful observation behind it, a duplicate a task that covers the wanted episode.
   */
  lemma DecisionMeaning(w: Want, client: string, observed: map<string, Observation>, order: seq<string>)
    requires forall c :: c in order <==> c in observed
    ensures var v := Decide(w, client, observed, order);
            && (client !in observed || !observed[client].Seen? ==> v == Refuse)
            && (client in observed && observed[client].Seen? ==>
                 var tasks := observed[client].tasks;
                 var none := forall j :: 0 <= j < |tasks| ==> !w.matches(w.id, tasks[j]);
                 && (v.AlreadyThere? <==> exists i: nat :: SoleMatch(w, tasks, i))
                 && (v.AlreadyThere? ==> exists i: nat :: SoleMatch(w, tasks, i) && v.task == tasks[i])
                 && (!none && !v.AlreadyThere? ==> v == Refuse)
                 && (none && v == Refuse ==> exists c :: c in observed && Doubtful(w, c, observed[c]))
                 && (v.Duplicate? ==> none && exists c :: c in observed && Covers(w, c, observed[c], v.task)))
  {
    hide Scan;
    ScanRefuse(w, observed, order);
    ScanDuplicate(w, observed, order);
    if client in observed && observed[client].Seen? {
      MatchingSole(w, observed[client].tasks);
      MatchingNone(w, observed[client].tasks);
    }
  }

  /**
   * An Add can follow a failed listing if and only if another downloader's bulk listing failed; any other failed
   * listing is noticed.
   */
  lemma SubmitListings(w: Want, client: string, observed: map<string, Observation>, order: seq<string>)
    requires Enumerates(order, observed.Keys) && Decide(w, client, observed, order) == Submit
    ensures (exists c :: c in observed && !observed[c].Seen?) <==>
      exists c :: c in observed && c != client && observed[c] == Unseen
    ensures |observed| <= 1 ==> forall c :: c in observed ==> observed[c].Seen?
  {
    SubmitIff(w, client, observed, order);
    forall c | c in observed && |observed| <= 1 ensures c == client {
      OnlyOne(observed.Keys, c, client);
    }
  }

  lemma OnlyOne(s: set<string>, a: string, b: string)
    requires a in s && b in s && |s| <= 1
    ensures a == b
  {
    assert |s - {a}| == 0;
    assert b !in s - {a};
  }

  /**
   * What the checks alone would let through with several downloaders, which the configuration loader rejects: the
   * failed bulk listing of another one goes unnoticed.
   */
  lemma SilentListingFailure(w: Want)
    ensures Decide(w, "a", map["a" := Seen([]), "b" := Unseen], ["a", "b"]) == Submit
  {
    var observed := map["a" := Seen([]), "b" := Unseen];
    SubmitIff(w, "a", observed, ["a", "b"]);
  }

  /**
   * After a change of downloader the same acquisition is submitted again. The run lists the new downloader only;
   * listing the old one too would not help, since matching looks at the chosen one only.
   */
  lemma ChangedDownloaderSubmitsAgain(w: Want, t: Task)
    requires w.matches(w.id, t) && w.judge("a", t) == SameEpisode
    ensures Decide(w, "b", map["b" := Seen([])], ["b"]) == Submit
    ensures Decide(w, "b", map["a" := Seen([t]), "b" := Seen([])], ["a", "b"]) == Submit
  {
    SubmitIff(w, "b", map["b" := Seen([])], ["b"]);
    SubmitIff(w, "b", map["a" := Seen([t]), "b" := Seen([])], ["a", "b"]);
  }

  // ---- at most one task per acquisition -----------------------------------------------------------------------

  function CountFor(tasks: seq<Task>, id: string): nat {
    if tasks == [] then 0 else CountFor(tasks[..|tasks| - 1], id) + if tasks[|tasks| - 1].origin == Some(id) then 1
      else 0
  }

  lemma {:induction false} CountZero(tasks: seq<Task>, id: string)
    ensures CountFor(tasks, id) == 0 <==> forall t :: t in tasks ==> t.origin != Some(id)
  {
    if tasks != [] {
      var n := |tasks| - 1;
      CountZero(tasks[..n], id);
      assert tasks == tasks[..n] + [tasks[n]];
    }
  }

  /** How many tasks all downloaders together hold for the acquisition. */
  ghost function Total(tasks: map<string, seq<Task>>, id: string): nat {
    if tasks.Keys == {} then 0 else var c :| c in tasks.Keys; CountFor(tasks[c], id) + Total(tasks - {c}, id)
  }

  lemma {:induction false} TotalAt(tasks: map<string, seq<Task>>, id: string, c: string)
    requires c in tasks
    ensures Total(tasks, id) == CountFor(tasks[c], id) + Total(tasks - {c}, id)
    decreases |tasks|
  {
    var b :| b in tasks.Keys && Total(tasks, id) == CountFor(tasks[b], id) + Total(tasks - {b}, id);
    if b != c {
      assert (tasks - {b}).Keys == tasks.Keys - {b} && (tasks - {c}).Keys == tasks.Keys - {c};
      TotalAt(tasks - {b}, id, c);
      TotalAt(tasks - {c}, id, b);
      assert tasks - {b} - {c} == tasks - {c} - {b};
    }
  }

  lemma {:induction false} TotalFewer(was: map<string, seq<Task>>, now: map<string, seq<Task>>, id: string)
    requires now.Keys == was.Keys && forall c :: c in now ==> CountFor(now[c], id) <= CountFor(was[c], id)
    ensures Total(now, id) <= Total(was, id)
    decreases |now|
  {
    if now.Keys != {} {
      var c :| c in now.Keys;
      assert (now - {c}).Keys == now.Keys - {c};
      TotalAt(now, id, c);
      TotalAt(was, id, c);
      TotalFewer(was - {c}, now - {c}, id);
    }
  }

  /** If one downloader holds all tasks of the acquisition, its count is the total. */
  lemma {:induction false} TotalOfOne(tasks: map<string, seq<Task>>, id: string, c0: string)
    requires forall c :: c in tasks && c != c0 ==> CountFor(tasks[c], id) == 0
    ensures Total(tasks, id) == if c0 in tasks then CountFor(tasks[c0], id) else 0
    decreases |tasks|
  {
    if tasks.Keys != {} {
      var c :| c in tasks.Keys;
      assert (tasks - {c}).Keys == tasks.Keys - {c};
      TotalAt(tasks, id, c);
      TotalOfOne(tasks - {c}, id, c0);
    }
  }

  /** A call of Add, and whether the downloader accepted it. */
  datatype Attempt = Attempt(client: string, id: string, accepted: bool)

  /** The answer to an accepted Add may lack the task ID; a failure may hide an accepted Add. */
  datatype AddAnswer = AddFailed | Answered(task: Option<Task>)

  datatype Outcome = Submitted | Recovered | Skipped | Failed

  /** One candidate of the plan, as far as submission is concerned. */
  datatype Choice = Choice(selected: bool, entryKnown: bool, want: Want)

  /** Every task added for an acquisition is recognized as its task. */
  ghost predicate RecognizedIn(tasks: seq<Task>, matches: (string, Task) -> bool) {
    forall t :: t in tasks && t.origin.Some? ==> matches(t.origin.value, t)
  }

  ghost predicate Recognized(tasks: map<string, seq<Task>>, matches: (string, Task) -> bool) {
    forall c :: c in tasks ==> RecognizedIn(tasks[c], matches)
  }

  /** No downloader holds two tasks added for the same acquisition. */
  ghost predicate AtMostOne(tasks: map<string, seq<Task>>) {
    forall c, id :: c in tasks && id != "" ==> CountFor(tasks[c], id) <= 1
  }

  ghost predicate Fewer(now: seq<Task>, was: seq<Task>) {
    forall id :: CountFor(now, id) <= CountFor(was, id)
  }

  /** Nothing was added for an acquisition since: tasks may have gone, and foreign tasks may have come. */
  ghost predicate NoneAdded(was: map<string, seq<Task>>, now: map<string, seq<Task>>) {
    now.Keys == was.Keys && forall c :: c in was ==> Fewer(now[c], was[c])
  }

  /** Each task for an acquisition was there before, and not more often. */
  predicate Survive(was: seq<Task>, now: seq<Task>) {
    forall t | t in now :: t.origin.Some? ==> t in was && CountFor(now, t.origin.value) <= CountFor(was, t.origin.value)
  }

  predicate Interferes(was: map<string, seq<Task>>, now: map<string, seq<Task>>) {
    now.Keys == was.Keys && forall c | c in now.Keys :: Survive(was[c], now[c])
  }

  lemma SurvivorsAreFewer(was: seq<Task>, now: seq<Task>, matches: (string, Task) -> bool)
    requires Survive(was, now) && RecognizedIn(was, matches)
    ensures Fewer(now, was) && RecognizedIn(now, matches)
  {
    forall id ensures CountFor(now, id) <= CountFor(was, id) {
      CountZero(now, id);
    }
  }

  /** One task was added, for the acquisition `id`. */
  ghost predicate Grown(was: seq<Task>, now: seq<Task>, id: string, matches: (string, Task) -> bool) {
    |now| == |was| + 1 && now[..|was|] == was && now[|was|].origin == Some(id) && matches(id, now[|was|])
  }

  /** Only `client` changed, by one task for the acquisition if it `grew`. */
  ghost predicate OneAdded(was: map<string, seq<Task>>, now: map<string, seq<Task>>, client: string, id: string,
                           matches: (string, Task) -> bool, grew: bool)
  {
    if grew then
      && now.Keys == was.Keys && (forall c :: c in now && c != client ==> now[c] == was[c])
      && client in now && Grown(was[client], now[client], id, matches)
    else now == was
  }

  lemma OneAddedTotal(was: map<string, seq<Task>>, now: map<string, seq<Task>>, client: string, id: string,
                      matches: (string, Task) -> bool, grew: bool)
    requires OneAdded(was, now, client, id, matches, grew)
    ensures Total(now, id) == Total(was, id) + if grew then 1 else 0
  {
    if grew {
      assert now[client][..|was[client]|] == was[client];
      TotalAt(was, id, client);
      TotalAt(now, id, client);
      assert now - {client} == was - {client};
    }
  }

  /**
   * When another downloader holds the only task of an acquisition, a submission the chosen downloader would accept
   * makes a second one if and only if the snapshot lets it through.
   */
  lemma SecondTaskIff(was: map<string, seq<Task>>, now: map<string, seq<Task>>, w: Want, client: string, other: string,
                      observed: map<string, Observation>)
    requires other in was && other != client && CountFor(was[other], w.id) == 1
    requires forall c :: c in was && c != other ==> CountFor(was[c], w.id) == 0
    requires OneAdded(was, now, client, w.id, w.matches, Submits(w, client, observed))
    ensures Total(was, w.id) == 1
    ensures Total(now, w.id) > 1 <==> w.ready && Unhindered(w, client, observed)
    ensures Total(now, w.id) > 1 ==>
      client in now && CountFor(now[client], w.id) == 1 && CountFor(now[other], w.id) == 1
  {
    TotalOfOne(was, w.id, other);
    OneAddedTotal(was, now, client, w.id, w.matches, Submits(w, client, observed));
    if Submits(w, client, observed) {
      assert now[client][..|was[client]|] == was[client];
    }
  }

  /** With a single downloader configured, only its own listing decides, whatever other downloaders hold. */
  lemma AloneUnhindered(w: Want, client: string, observed: map<string, Observation>)
    requires observed.Keys == {client}
    ensures Unhindered(w, client, observed) <==>
      observed[client].Seen? && forall t :: t in observed[client].tasks ==>
        !w.matches(w.id, t) && Harmless(w, client, t)
  {
  }

  /** The unique task matching the wanted acquisition, if the tasks are unambiguous. */
  method UniqueMatch(w: Want, tasks: seq<Task>) returns (clash: bool, found: Option<Task>)
    ensures clash <==> |Matching(w, tasks)| > 1
    ensures !clash ==> found == if Matching(w, tasks) == [] then None else Some(Matching(w, tasks)[0])
  {
    var m := [];
    for i := 0 to |tasks|
      invariant m == Matching(w, tasks[..i])
    {
      assert tasks[..i + 1][..i] == tasks[..i];
      if w.matches(w.id, tasks[i]) {
        m := m + [tasks[i]];
      }
    }
    assert tasks[..|tasks|] == tasks;
    clash, found := |m| > 1, if |m| == 1 then Some(m[0]) else None;
  }

  /** The duplicate check, visiting the downloaders in an order the map iteration picks. */
  method Resolve(w: Want, client: string, observed: map<string, Observation>)
    returns (v: Verdict, ghost order: seq<string>)
    ensures Enumerates(order, observed.Keys)
    ensures v == Decide(w, client, observed, order)
    ensures v == Submit <==> Unhindered(w, client, observed)
    ensures v.AlreadyThere? ==>
      client in observed && observed[client].Seen? && Matching(w, observed[client].tasks) == [v.task]
    ensures v.Duplicate? ==> exists c :: c in observed && Covers(w, c, observed[c], v.task)
  {
    order := SetOrder(observed.Keys);
    if client !in observed || !observed[client].Seen? {
      return Refuse, order;
    }
    var clash, found := UniqueMatch(w, observed[client].tasks);
    if clash {
      SubmitIff(w, client, observed, order);
      return Refuse, order;
    }
    if found.Some? {
      SubmitIff(w, client, observed, order);
      return AlreadyThere(found.value), order;
    }
    v, order := ScanAll(w, observed, observed.Keys);
    SubmitIff(w, client, observed, order);
    ScanDuplicate(w, observed, order);
  }

  ghost function SetOrder(keys: set<string>): (order: seq<string>)
    ensures Enumerates(order, keys)
  {
    if keys == {} then [] else var k :| k in keys; [k] + SetOrder(keys - {k})
  }

  method ScanAll(w: Want, observed: map<string, Observation>, keys: set<string>)
    returns (v: Verdict, ghost order: seq<string>)
    requires keys <= observed.Keys
    ensures Enumerates(order, keys)
    ensures v == Scan(w, observed, order)
    decreases |keys|
  {
    if keys == {} {
      return Submit, [];
    }
    var c :| c in keys;
    order := [c] + SetOrder(keys - {c});
    match observed[c] {
      case Broken =>
        return Refuse, order;
      case Seen(tasks) =>
        var decided := Judge(w, c, tasks);
        if decided.Some? {
          return decided.value, order;
        }
      case Unseen =>
    }
    ghost var rest;
    v, rest := ScanAll(w, observed, keys - {c});
    order := [c] + rest;
  }

  method Judge(w: Want, client: string, tasks: seq<Task>) returns (v: Option<Verdict>)
    ensures v == JudgeTasks(w, client, tasks)
  {
    for i := 0 to |tasks|
      invariant JudgeTasks(w, client, tasks) == JudgeTasks(w, client, tasks[i..])
    {
      match w.judge(client, tasks[i]) {
        case FilesUnreadable => return Some(Refuse);
        case Unclear => return Some(Refuse);
        case SameEpisode =>
          if !w.matches(w.id, tasks[i]) {
            return Some(Duplicate(tasks[i]));
          }
        case Unrelated =>
        case OtherEpisode =>
      }
      assert tasks[i..][1..] == tasks[i + 1..];
    }
    v := None;
  }

  /**
   * For acquisitions outside `done`, the snapshot shows at least as many tasks as each listed downloader holds.
   */
  ghost predicate Bounded(tasks: map<string, seq<Task>>, observed: map<string, Observation>,
                          matches: (string, Task) -> bool, done: set<string>)
  {
    forall c :: c in observed && observed[c].Seen? ==>
      c in tasks && RecognizedIn(observed[c].tasks, matches) && FewerBut(tasks[c], observed[c].tasks, done)
  }

  ghost predicate FewerBut(now: seq<Task>, was: seq<Task>, done: set<string>) {
    forall id :: id != "" && id !in done ==> CountFor(now, id) <= CountFor(was, id)
  }

  lemma BoundedAfter(was: map<string, seq<Task>>, now: map<string, seq<Task>>, observed: map<string, Observation>,
                     matches: (string, Task) -> bool, done: set<string>)
    requires Bounded(was, observed, matches, done) && NoneAdded(was, now)
    ensures Bounded(now, observed, matches, done) && now.Keys == was.Keys
  {
  }

  lemma NothingObserved(tasks: map<string, seq<Task>>, matches: (string, Task) -> bool)
    ensures Bounded(tasks, map[], matches, {}) && NoneAdded(tasks, tasks) && AllSeen(map[], tasks)
  {
  }

  ghost predicate AllSeen(observed: map<string, Observation>, tasks: map<string, seq<Task>>) {
    forall c :: c in observed ==> c in tasks && observed[c] == Seen(tasks[c])
  }

  lemma OneMoreSeen(observed: map<string, Observation>, tasks: map<string, seq<Task>>, c: string, o: Observation)
    ensures AllSeen(observed, tasks) && c in tasks && o == Seen(tasks[c]) ==> AllSeen(observed[c := o], tasks)
  {
  }

  lemma AllListed(observed: map<string, Observation>, tasks: map<string, seq<Task>>, configured: set<string>)
    requires observed.Keys == configured
    ensures AllSeen(observed, tasks) ==> observed == Listed(tasks, configured)
  {
  }

  /** What a run over these downloaders observes if it misses nothing. */
  function Listed(tasks: map<string, seq<Task>>, configured: set<string>): map<string, Observation> {
    map c | c in configured && c in tasks :: Seen(tasks[c])
  }

  /** The snapshot changed for the chosen downloader only, and only if that was listed. */
  ghost predicate Steady(was: map<string, Observation>, now: map<string, Observation>, client: string) {
    && now.Keys == was.Keys
    && forall c :: c in was && now[c] != was[c] ==> c == client && was[c].Seen? && now[c].Seen?
  }

  /** Every listing succeeded, but for bulk listings of other downloaders. */
  ghost predicate AllNoticed(observed: map<string, Observation>, client: string, bulk: set<string>) {
    && client in observed && observed[client].Seen?
    && forall c :: c in observed && !observed[c].Seen? ==> c != client && c in bulk && observed[c] == Unseen
  }

  lemma SubmitsNoticed(w: Want, client: string, first: map<string, Observation>, observed: map<string, Observation>,
                       bulk: set<string>)
    requires Submits(w, client, observed) && Steady(first, observed, client)
    requires forall c :: c in first && first[c].Unseen? ==> c in bulk
    ensures AllNoticed(first, client, bulk)
  {
  }

  /** Nothing was added at other downloaders. */
  ghost predicate OthersFewer(was: map<string, seq<Task>>, now: map<string, seq<Task>>, client: string) {
    now.Keys == was.Keys && forall c :: c in now && c != client ==> Fewer(now[c], was[c])
  }

  lemma OthersFewerTwice(a: map<string, seq<Task>>, b: map<string, seq<Task>>, c: map<string, seq<Task>>,
                         client: string)
    requires a == b || OthersFewer(a, b, client)
    requires c.Keys == b.Keys && forall k :: k in c && k != client ==> Fewer(c[k], b[k])
    ensures OthersFewer(a, c, client)
  {
  }

  lemma ElsewhereFewer(was: map<string, seq<Task>>, now: map<string, seq<Task>>, client: string)
    requires OthersFewer(was, now, client)
    ensures forall c :: c in now && c != client ==> c in was && Fewer(now[c], was[c])
  {
  }

  lemma NothingChanged(observed: map<string, Observation>, client: string)
    ensures Steady(observed, observed, client)
  {
  }

  lemma NoticedAll(first: map<string, Observation>, client: string, bulk: set<string>)
    requires AllNoticed(first, client, bulk)
    ensures |first.Keys| <= 1 || bulk == {} ==> forall c :: c in first ==> first[c].Seen?
  {
    forall c | c in first && |first.Keys| <= 1 ensures c == client {
      OnlyOne(first.Keys, c, client);
    }
  }

  lemma SteadyTwice(a: map<string, Observation>, b: map<string, Observation>, c: map<string, Observation>,
                    client: string)
    requires Steady(a, b, client) && Steady(b, c, client)
    ensures Steady(a, c, client)
  {
  }

  lemma BoundedListing(tasks: map<string, seq<Task>>, observed: map<string, Observation>,
                       matches: (string, Task) -> bool,
                       done: set<string>, c: string, o: Observation)
    requires Bounded(tasks, observed, matches, done) && Recognized(tasks, matches)
    requires o.Seen? ==> c in tasks && o.tasks == tasks[c]
    ensures Bounded(tasks, observed[c := o], matches, done)
  {
  }

  lemma FewerThrough(was: map<string, seq<Task>>, now: map<string, seq<Task>>)
    requires NoneAdded(was, now)
    ensures now.Keys == was.Keys && forall c :: c in now ==> Fewer(now[c], was[c])
  {
  }

  lemma NoneAddedElsewhere(a: map<string, seq<Task>>, b: map<string, seq<Task>>, added: map<string, seq<Task>>,
                           now: map<string, seq<Task>>, client: string, id: string, matches: (string, Task) -> bool,
                             grew: bool)
    requires NoneAdded(a, b) && NoneAdded(added, now) && OneAdded(b, added, client, id, matches, grew)
    ensures now.Keys == a.Keys && forall c :: c in now && c != client ==> Fewer(now[c], a[c])
  {
  }

  lemma Covered(tasks: map<string, seq<Task>>, observed: map<string, Observation>, matches: (string, Task) -> bool,
                done: set<string>, client: string)
    requires Bounded(tasks, observed, matches, done) && client in observed && observed[client].Seen?
    ensures client in tasks
  {
  }

  lemma FoundIsRecognized(w: Want, tasks: map<string, seq<Task>>, client: string, t: Task)
    requires client in tasks && Recognized(tasks, w.matches) && t in Matching(w, tasks[client])
    ensures t.origin.Some? ==> w.matches(t.origin.value, t)
  {
    MatchingMember(w, tasks[client], t);
  }

  lemma NoneAddedTwice(a: map<string, seq<Task>>, b: map<string, seq<Task>>, c: map<string, seq<Task>>)
    requires NoneAdded(a, b) && NoneAdded(b, c)
    ensures NoneAdded(a, c)
  {
  }

  /** An unmatched snapshot proves that nothing was added for the acquisition yet. */
  lemma NothingYet(w: Want, client: string, tasks: map<string, seq<Task>>, observed: map<string, Observation>,
                   done: set<string>)
    requires Bounded(tasks, observed, w.matches, done)
    requires client in observed && observed[client].Seen? && w.id != "" && w.id !in done
    requires forall t :: t in observed[client].tasks ==> !w.matches(w.id, t)
    ensures CountFor(tasks[client], w.id) == 0
  {
    CountZero(observed[client].tasks, w.id);
  }

  /** After an Add, its acquisition is the only one the snapshot may be behind on. */
  lemma AddKeepsBounds(was: map<string, seq<Task>>, now: map<string, seq<Task>>, client: string, w: Want,
                       observed: map<string, Observation>, done: set<string>, grew: bool)
    requires client in was && Bounded(was, observed, w.matches, done) && AtMostOne(was)
    requires OneAdded(was, now, client, w.id, w.matches, grew)
    requires w.id != "" ==> CountFor(was[client], w.id) == 0
    ensures Bounded(now, observed, w.matches, done + {w.id}) && AtMostOne(now)
  {
  }

  ghost predicate OncePerRun(attempts: seq<Attempt>) {
    forall i, j :: 0 <= i < j < |attempts| && attempts[i].id != "" ==> attempts[i].id != attempts[j].id
  }

  function CountSelected(plan: seq<Choice>): nat {
    if plan == [] then 0 else CountSelected(plan[..|plan| - 1]) + if plan[|plan| - 1].selected then 1 else 0
  }

  class Downloaders {
    /** The tasks each downloader holds. */
    var tasks: map<string, seq<Task>>
    /** Downloaders listed together with their files in one call. */
    const bulk: set<string>
    const matches: (string, Task) -> bool
    /**
     * Whether others change tasks too, and whether every listing and every topology repair succeeds and every Add gives
     * the task of `made`.
     */
    const shared: bool
    const reliable: bool
    const made: string -> Task
    ghost var attempts: seq<Attempt>

    constructor (clients: set<string>, bulk: set<string>, matches: (string, Task) -> bool, shared: bool, reliable: bool,
                 made: string -> Task)
      ensures Valid() && tasks == (map c | c in clients :: []) && attempts == []
      ensures this.matches == matches && this.shared == shared && this.reliable == reliable && this.made == made
    {
      this.tasks, this.bulk, this.matches, this.attempts := map c | c in clients :: [], bulk, matches, [];
      this.shared, this.reliable, this.made := shared, reliable, made;
    }

    predicate Makes(id: string) {
      made(id).origin == Some(id) && matches(id, made(id))
    }

    ghost predicate Valid()
      reads this
    {
      Recognized(tasks, matches) && AtMostOne(tasks)
    }

    /** Users and other programs remove tasks and add their own. */
    method Interfere()
      requires Valid()
      modifies this`tasks
      ensures Valid() && NoneAdded(old(tasks), tasks)
      ensures !shared ==> tasks == old(tasks)
    {
      var now: map<string, seq<Task>> := *;
      if shared && Interferes(tasks, now) {
        forall c | c in now ensures Fewer(now[c], tasks[c]) && RecognizedIn(now[c], matches) {
          SurvivorsAreFewer(tasks[c], now[c], matches);
        }
        tasks := now;
      }
    }

    /** A listing may fail; one that succeeds shows the tasks as they are. */
    method List(client: string) returns (listed: Option<seq<Task>>)
      ensures listed.Some? ==> client in tasks && listed == Some(tasks[client])
      ensures reliable && client in tasks ==> listed.Some?
    {
      var works: bool := *;
      listed := if (works || reliable) && client in tasks then Some(tasks[client]) else None;
    }

    /** The downloader may reject a submission, accept it and answer, or accept it and lose the answer. */
    method Add(client: string, id: string) returns (answer: AddAnswer, ghost accepted: bool)
      requires client in tasks && Recognized(tasks, matches)
      modifies this
      ensures Recognized(tasks, matches)
      ensures attempts == old(attempts) + [Attempt(client, id, accepted)]
      ensures OneAdded(old(tasks), tasks, client, id, matches, accepted)
      ensures answer.Answered? ==> accepted
      ensures answer.Answered? && answer.task.Some? ==>
        answer.task.value.origin == Some(id) && matches(id, answer.task.value)
      ensures reliable && Makes(id) ==> accepted
    {
      var t: Task := *;
      var answered: bool := *;
      var named: bool := *;
      if reliable {
        t := made(id);
      }
      accepted := t.origin == Some(id) && matches(id, t);
      attempts := attempts + [Attempt(client, id, accepted)];
      if t.origin != Some(id) || !matches(id, t) {
        return AddFailed, accepted;
      }
      tasks := tasks[client := tasks[client] + [t]];
      answer := if !answered then AddFailed else Answered(if named then Some(t) else None);
    }
  }

  /** What must hold for a release to be submitted. */
  ghost predicate Submits(w: Want, client: string, observed: map<string, Observation>) {
    w.ready && Unhindered(w, client, observed)
  }

  /** A downloader without a task of the acquisition that took one has exactly that one. */
  lemma AddedAlone(w: Want, was: map<string, seq<Task>>, now: map<string, seq<Task>>, client: string)
    requires OneAdded(was, now, client, w.id, w.matches, true) && client in was
    requires forall t :: t in was[client] ==> !w.matches(w.id, t)
    ensures |Matching(w, now[client])| == 1
  {
    MatchingNone(w, was[client]);
    assert now[client] == was[client] + [now[client][|was[client]|]];
    assert now[client][..|now[client]| - 1] == was[client];
  }

  /** The latest listing of the downloader shows exactly one task of the acquisition. */
  ghost predicate Found(w: Want, client: string, observed: map<string, Observation>) {
    client in observed && observed[client].Seen? && |Matching(w, observed[client].tasks)| == 1
  }

  /** How the outcome follows from the verdict; `added` says that Add was called. */
  ghost predicate Follows(v: Verdict, ready: bool, added: bool, outcome: Outcome) {
    match v
    case Refuse => outcome == Failed
    case AlreadyThere(_) => outcome == Skipped || outcome == Failed
    case Duplicate(_) => outcome == Skipped
    case Submit => (!ready && outcome == Failed) || (ready && added && outcome != Skipped)
  }

  class Runner {
    const d: Downloaders
    /** The downloaders of the loaded configuration, which has at most one. */
    const configured: set<string>
    /** The listings this run decides from. */
    var observed: map<string, Observation>

    constructor (d: Downloaders, configured: set<string>)
      ensures this.d == d && this.configured == configured
    {
      this.d, this.configured, this.observed := d, configured, map[];
    }

    /** Lists one downloader. A failed bulk listing leaves it out, any other failed listing is remembered. */
    method ObserveOne(c: string)
      requires d.Valid() && c in d.tasks && Bounded(d.tasks, observed, d.matches, {})
      modifies this, d`tasks
      ensures d.Valid() && NoneAdded(old(d.tasks), d.tasks) && Bounded(d.tasks, observed, d.matches, {})
      ensures c in observed && observed == old(observed)[c := observed[c]]
      ensures observed[c].Unseen? ==> c in d.bulk
      ensures observed[c].Broken? ==> c !in d.bulk
      ensures !d.shared ==> d.tasks == old(d.tasks) && (d.reliable ==> observed[c] == Seen(d.tasks[c]))
    {
      hide Bounded;
      hide NoneAdded;
      hide Recognized;
      hide AtMostOne;
      var listed := d.List(c);
      var seen := if listed.Some? then Seen(listed.value) else if c in d.bulk then Unseen else Broken;
      BoundedListing(d.tasks, observed, d.matches, {}, c, seen);
      observed := observed[c := seen];
      d.Interfere();
      BoundedAfter(old(d.tasks), d.tasks, observed, d.matches, {});
    }

    /** Lists every configured downloader once. */
    method Observe()
      requires d.Valid() && configured <= d.tasks.Keys
      modifies this, d`tasks
      ensures d.Valid() && NoneAdded(old(d.tasks), d.tasks)
      ensures observed.Keys == configured && Bounded(d.tasks, observed, d.matches, {})
      ensures forall c :: c in observed && observed[c].Unseen? ==> c in d.bulk
      ensures !d.shared ==> d.tasks == old(d.tasks) && (d.reliable ==> observed == Listed(d.tasks, configured))
      ensures d.attempts == old(d.attempts)
    {
      hide Bounded;
      hide NoneAdded;
      hide Recognized;
      hide AtMostOne;
      hide AllSeen;
      hide Listed;
      observed := map[];
      NothingObserved(d.tasks, d.matches);
      var rest := configured;
      while rest != {}
        invariant d.Valid() && NoneAdded(old(d.tasks), d.tasks) && d.tasks.Keys == old(d.tasks.Keys)
        invariant rest <= configured && observed.Keys == configured - rest && Bounded(d.tasks, observed, d.matches, {})
        invariant forall c :: c in observed && observed[c].Unseen? ==> c in d.bulk
        invariant !d.shared ==> d.tasks == old(d.tasks)
        invariant !d.shared && d.reliable ==> AllSeen(observed, d.tasks)
        decreases |rest|
      {
        var c :| c in rest;
        rest := rest - {c};
        ghost var was := d.tasks;
        ghost var sofar := observed;
        ObserveOne(c);
        FewerThrough(was, d.tasks);
        NoneAddedTwice(old(d.tasks), was, d.tasks);
        OneMoreSeen(sofar, d.tasks, c, observed[c]);
      }
      AllListed(observed, d.tasks, configured);
    }

    /**
     * Submits the wanted release at most once, and exactly when the snapshot allows it. Whatever the downloader
     * answers, it never holds two tasks added for one acquisition. `added` says that Add was called, `accepted` then
     * that the downloader took it.
     */
    method EnsureOwned(w: Want, client: string, ghost done: set<string>)
      returns (outcome: Outcome, ghost order: seq<string>, ghost added: bool, ghost accepted: bool)
      requires d.Valid() && w.matches == d.matches && Bounded(d.tasks, observed, d.matches, done)
      requires w.id != "" ==> w.id !in done
      modifies this, d
      ensures d.Valid() && d.tasks.Keys == old(d.tasks.Keys) && Bounded(d.tasks, observed, d.matches, done + {w.id})
      ensures added <==> Submits(w, client, old(observed))
      ensures Steady(old(observed), observed, client)
      ensures d.attempts == old(d.attempts) + if added then [Attempt(client, w.id, accepted)] else []
      ensures d.reliable && d.Makes(w.id) ==> accepted
      ensures outcome.Submitted? ==> added && accepted
      ensures outcome.Recovered? ==> added && Found(w, client, observed)
      ensures Enumerates(order, old(observed.Keys))
      ensures Follows(Decide(w, client, old(observed), order), w.ready, added, outcome)
      ensures d.reliable && Decide(w, client, old(observed), order).AlreadyThere? ==> outcome == Skipped
      ensures added && accepted && d.reliable && !d.shared && Current(old(d.tasks), old(observed), client) ==>
        outcome == Submitted || outcome == Recovered
      ensures forall c :: c in d.tasks && (c != client || !added) ==> Fewer(d.tasks[c], old(d.tasks)[c])
      ensures Total(d.tasks, w.id) > Total(old(d.tasks), w.id) ==> Submits(w, client, old(observed))
      ensures !d.shared ==> OneAdded(old(d.tasks), d.tasks, client, w.id, w.matches, added && accepted)
      ensures !d.shared && accepted ==>
        (Total(d.tasks, w.id) > Total(old(d.tasks), w.id) <==> w.ready && Unhindered(w, client, old(observed)))
    {
      var v;
      v, order := Resolve(w, client, observed);
      SubmitIff(w, client, observed, order);
      added, accepted := false, true;
      var topology: bool := *;
      topology := topology || d.reliable;
      match v {
        case Refuse =>
          outcome := Failed;
          return;
        case AlreadyThere(_) =>
          outcome := if topology then Skipped else Failed;
          return;
        case Duplicate(_) =>
          outcome := Skipped;
          return;
        case Submit =>
      }
      if !w.ready {
        outcome := Failed;
        return;
      }
      var answer;
      answer, accepted := SubmitTo(w, client, done);
      outcome := Conclude(w, client, answer, done);
      added := true;
      if !d.shared && accepted && Current(old(d.tasks), old(observed), client) {
        AddedAlone(w, old(d.tasks), d.tasks, client);
      }
      if !d.shared {
        OneAddedTotal(old(d.tasks), d.tasks, client, w.id, w.matches, accepted);
      }
    }

    /** Add, with others acting before and after it. */
    method SubmitTo(w: Want, client: string, ghost done: set<string>) returns (answer: AddAnswer, ghost accepted: bool)
      requires d.Valid() && w.matches == d.matches && Bounded(d.tasks, observed, d.matches, done)
      requires w.id != "" ==> w.id !in done
      requires client in observed && observed[client].Seen? && forall t :: t in observed[client].tasks ==>
        !w.matches(w.id, t)
      modifies d
      ensures d.Valid() && d.tasks.Keys == old(d.tasks.Keys) && Bounded(d.tasks, observed, d.matches, done + {w.id})
      ensures d.attempts == old(d.attempts) + [Attempt(client, w.id, accepted)]
      ensures answer.Answered? ==> accepted
      ensures answer.Answered? && answer.task.Some? ==>
        answer.task.value.origin == Some(w.id) && w.matches(w.id, answer.task.value)
      ensures d.reliable && d.Makes(w.id) ==> accepted
      ensures forall c :: c in d.tasks && c != client ==> Fewer(d.tasks[c], old(d.tasks)[c])
      ensures !d.shared ==> OneAdded(old(d.tasks), d.tasks, client, w.id, w.matches, accepted)
    {
      hide Bounded;
      hide NoneAdded;
      hide Recognized;
      hide AtMostOne;
      hide CountFor;
      hide Fewer;
      hide OneAdded;
      d.Interfere();
      BoundedAfter(old(d.tasks), d.tasks, observed, d.matches, done);
      Covered(d.tasks, observed, d.matches, done, client);
      ghost var before := d.tasks;
      if w.id != "" {
        NothingYet(w, client, d.tasks, observed, done);
      }
      answer, accepted := d.Add(client, w.id);
      AddKeepsBounds(before, d.tasks, client, w, observed, done, accepted);
      ghost var added := d.tasks;
      d.Interfere();
      BoundedAfter(added, d.tasks, observed, d.matches, done + {w.id});
      NoneAddedElsewhere(old(d.tasks), before, added, d.tasks, client, w.id, w.matches, accepted);
    }

    /** The second look at the downloader when the answer is lost or names no task. */
    method Conclude(w: Want, client: string, answer: AddAnswer, ghost done: set<string>) returns (outcome: Outcome)
      requires d.Valid() && w.matches == d.matches && Bounded(d.tasks, observed, d.matches, done + {w.id})
      requires client in observed && observed[client].Seen?
      requires answer.Answered? && answer.task.Some? ==>
        answer.task.value.origin == Some(w.id) && w.matches(w.id, answer.task.value)
      modifies this
      ensures Bounded(d.tasks, observed, d.matches, done + {w.id})
      ensures Steady(old(observed), observed, client)
      ensures outcome.Submitted? ==> answer.Answered?
      ensures outcome.Recovered? ==> Found(w, client, observed)
      ensures outcome != Skipped && (answer.AddFailed? ==> outcome != Submitted)
      ensures outcome.Submitted? && answer.Answered? && answer.task.Some? ==>
        observed == old(observed)[client := Seen(old(observed)[client].tasks + [answer.task.value])]
      ensures d.reliable && client in d.tasks && answer.AddFailed? ==>
        observed == old(observed)[client := Seen(d.tasks[client])]
      ensures d.reliable && client in d.tasks ==>
        var matching := |Matching(w, d.tasks[client])|;
        && (answer.AddFailed? ==> outcome == if matching == 1 then Recovered else Failed)
        && (answer.Answered? ==> outcome == if answer.task == None && matching > 1 then Failed else Submitted)
    {
      hide Bounded;
      hide Recognized;
      hide AtMostOne;
      hide Matching;
      var topology: bool := *;
      topology := topology || d.reliable;
      match answer {
        case AddFailed =>
          var listed := d.List(client);
          if listed == None {
            return Failed;
          }
          BoundedListing(d.tasks, observed, d.matches, done + {w.id}, client, Seen(listed.value));
          observed := observed[client := Seen(listed.value)];
          var clash, found := UniqueMatch(w, listed.value);
          return if !clash && found.Some? then Recovered else Failed;
        case Answered(task) =>
          var known := task;
          if known == None {
            var listed := d.List(client);
            if listed == None {
              return Submitted;
            }
            var clash, found := UniqueMatch(w, listed.value);
            if clash {
              return Failed;
            }
            if found == None {
              return Submitted;
            }
            known := found;
            FoundIsRecognized(w, d.tasks, client, known.value);
          }
          if !topology {
            return Failed;
          }
          Appended(w, client, known.value, done);
          observed := observed[client := Seen(observed[client].tasks + [known.value])];
          outcome := Submitted;
      }
    }

    lemma Appended(w: Want, client: string, t: Task, done: set<string>)
      requires Bounded(d.tasks, observed, d.matches, done + {w.id})
      requires client in observed && observed[client].Seen? && (t.origin.Some? ==> d.matches(t.origin.value, t))
      ensures Bounded(d.tasks, observed[client := Seen(observed[client].tasks + [t])], d.matches, done + {w.id})
    {
    }

    /** One selected candidate: unless its Entry is unknown or its acquisition was seen in this run, ensure its task. */
    method Consider(c: Choice, client: string, seen: set<string>)
      returns (outcome: Outcome, seen': set<string>, ghost calls: seq<Attempt>)
      requires d.Valid() && c.want.matches == d.matches && Bounded(d.tasks, observed, d.matches, seen)
      modifies this, d
      ensures d.Valid() && d.tasks.Keys == old(d.tasks.Keys) && Bounded(d.tasks, observed, d.matches, seen')
      ensures seen' == if c.entryKnown && c.want.id != "" then seen + {c.want.id} else seen
      ensures d.attempts == old(d.attempts) + calls
      ensures calls == [] || (|calls| == 1 && c.entryKnown && calls[0].client == client && calls[0].id == c.want.id &&
        c.want.id !in seen - {""})
      ensures Steady(old(observed), observed, client) && (calls != [] ==> Submits(c.want, client, old(observed)))
      ensures c.want.id in seen - {""} && c.entryKnown ==> outcome == Skipped
      ensures !c.entryKnown ==> outcome == Failed
      ensures forall k :: k in d.tasks && k != client ==> Fewer(d.tasks[k], old(d.tasks)[k])
      ensures !d.shared && d.reliable && c.entryKnown && c.want.id !in seen - {""} && d.Makes(c.want.id) ==>
        OneAdded(old(d.tasks), d.tasks, client, c.want.id, d.matches, Submits(c.want, client, old(observed)))
      ensures (!d.shared && d.reliable && c.entryKnown && c.want.id !in seen - {""} && d.Makes(c.want.id)
               && Submits(c.want, client, old(observed)) && Current(old(d.tasks), old(observed), client)) ==>
        outcome == Submitted || outcome == Recovered
    {
      hide Bounded;
      hide Recognized;
      hide AtMostOne;
      hide CountFor;
      hide Decide;
      hide OneAdded;
      hide Submits;
      hide Unhindered;
      hide Follows;
      hide Total;
      hide Current;
      seen', calls := seen, [];
      if !c.entryKnown {
        outcome := Failed;
        return;
      }
      if c.want.id != "" && c.want.id in seen {
        outcome := Skipped;
        assert seen + {c.want.id} == seen;
        return;
      }
      if c.want.id != "" {
        seen' := seen + {c.want.id};
      }
      ghost var order, added, accepted;
      outcome, order, added, accepted := EnsureOwned(c.want, client, seen);
      Weaken(d.tasks, observed, d.matches, seen, c.want.id);
      calls := if added then [Attempt(client, c.want.id, accepted)] else [];
    }

    /** The candidates of the plan, one after the other, decided from the listings the run started with. */
    method AcquireObserved(plan: seq<Choice>, client: string) returns (outcomes: seq<Outcome>)
      requires d.Valid() && Bounded(d.tasks, observed, d.matches, {})
      requires forall i :: 0 <= i < |plan| ==> plan[i].want.matches == d.matches
      requires forall c :: c in observed && observed[c].Unseen? ==> c in d.bulk
      modifies this, d
      ensures d.Valid() && d.tasks.Keys == old(d.tasks.Keys) && |outcomes| == CountSelected(plan)
      ensures old(d.attempts) <= d.attempts && OncePerRun(d.attempts[|old(d.attempts)|..])
      ensures forall a :: a in d.attempts[|old(d.attempts)|..] ==> a.client == client && Asked(plan, a.id)
      ensures forall c :: c in d.tasks && c != client ==> Fewer(d.tasks[c], old(d.tasks)[c])
      ensures d.attempts != old(d.attempts) ==> AllNoticed(old(observed), client, d.bulk)
      ensures |plan| == 1 && Smooth(d, plan[0]) ==>
        OneAdded(old(d.tasks), d.tasks, client, plan[0].want.id, d.matches,
          Submits(plan[0].want, client, old(observed)))
      ensures (|plan| == 1 && Smooth(d, plan[0]) && Submits(plan[0].want, client, old(observed))
               && Current(old(d.tasks), old(observed), client)) ==>
        outcomes == [Submitted] || outcomes == [Recovered]
    {
      hide Bounded;
      hide OthersFewer;
      hide Recognized;
      hide AtMostOne;
      hide CountFor;
      hide OneAdded;
      hide Submits;
      hide Steady;
      hide AllNoticed;
      outcomes := [];
      ghost var run: seq<Attempt> := [];
      NothingChanged(observed, client);
      OthersFewerTwice(d.tasks, d.tasks, d.tasks, client);
      var seen: set<string> := {};
      for i := 0 to |plan|
        invariant d.Valid() && d.tasks.Keys == old(d.tasks.Keys) && Bounded(d.tasks, observed, d.matches, seen)
        invariant |outcomes| == CountSelected(plan[..i])
        invariant d.attempts == old(d.attempts) + run && OncePerRun(run)
        invariant forall a :: a in run ==> a.client == client && Asked(plan, a.id) && (a.id != "" ==> a.id in seen)
        invariant OthersFewer(old(d.tasks), d.tasks, client)
        invariant Steady(old(observed), observed, client) && (run != [] ==> AllNoticed(old(observed), client, d.bulk))
        invariant i == 0 ==> seen == {} && d.tasks == old(d.tasks) && observed == old(observed)
        invariant i == 1 && Smooth(d, plan[0]) ==>
          OneAdded(old(d.tasks), d.tasks, client, plan[0].want.id, d.matches,
            Submits(plan[0].want, client, old(observed)))
        invariant i == 0 ==> outcomes == []
        invariant (i == 1 && Smooth(d, plan[0]) && Submits(plan[0].want, client, old(observed))
                   && Current(old(d.tasks), old(observed), client)) ==>
          outcomes == [Submitted] || outcomes == [Recovered]
      {
        assert plan[..i + 1][..i] == plan[..i];
        if plan[i].selected {
          var outcome;
          ghost var calls;
          ghost var before, held := observed, d.tasks;
          outcome, seen, calls := Consider(plan[i], client, seen);
          outcomes := outcomes + [outcome];
          run := run + calls;
          OthersFewerTwice(old(d.tasks), held, d.tasks, client);
          SteadyTwice(old(observed), before, observed, client);
          if calls != [] {
            SubmitsNoticed(plan[i].want, client, old(observed), before, d.bulk);
          }
        }
      }
      assert plan[..|plan|] == plan;
      ElsewhereFewer(old(d.tasks), d.tasks, client);
    }

    /**
     * One serialized run over the plan. Every selected candidate gets one outcome, each acquisition is submitted
     * at most once per run, and only to the chosen downloader; `reachable` says that the publication domain exists.
     * No Add is issued unless every listing the run started from succeeded, but for unnoticed bulk listings of
     * other downloaders; with at most one configured, none of those exists. `first` is that snapshot. The last clause
     * says what a run over a single candidate does when nothing fails and nobody interferes.
     */
    method Acquire(plan: seq<Choice>, client: string, reachable: bool)
      returns (outcomes: seq<Outcome>, ghost first: map<string, Observation>)
      requires d.Valid() && configured <= d.tasks.Keys
      requires forall i :: 0 <= i < |plan| ==> plan[i].want.matches == d.matches
      modifies this, d
      ensures d.Valid() && d.tasks.Keys == old(d.tasks.Keys)
      ensures |outcomes| == if reachable then CountSelected(plan) else 0
      ensures old(d.attempts) <= d.attempts && OncePerRun(d.attempts[|old(d.attempts)|..])
      ensures forall a :: a in d.attempts[|old(d.attempts)|..] ==> a.client == client && Asked(plan, a.id)
      ensures forall c :: c in d.tasks && c != client ==> Fewer(d.tasks[c], old(d.tasks)[c])
      ensures d.attempts != old(d.attempts) ==> first.Keys == configured && AllNoticed(first, client, d.bulk)
      ensures d.attempts != old(d.attempts) && (|configured| <= 1 || d.bulk == {}) ==>
        forall c :: c in configured ==> first[c].Seen?
      ensures reachable && |plan| == 1 && Smooth(d, plan[0]) ==>
        OneAdded(old(d.tasks), d.tasks, client, plan[0].want.id, d.matches,
                 Submits(plan[0].want, client, Listed(old(d.tasks), configured)))
      ensures (reachable && |plan| == 1 && Smooth(d, plan[0])
               && Submits(plan[0].want, client, Listed(old(d.tasks), configured))) ==>
        outcomes == [Submitted] || outcomes == [Recovered]
    {
      hide Bounded;
      hide Recognized;
      hide AtMostOne;
      hide OneAdded;
      hide Submits;
      hide Listed;
      hide AllNoticed;
      outcomes, first := [], map[];
      var hasSelected := exists k | 0 <= k < |plan| :: plan[k].selected;
      if !hasSelected {
        NoneSelected(plan);
      }
      if hasSelected && !reachable {
        return;
      }
      Observe();
      if !d.shared && d.reliable {
        ListedIsCurrent(d.tasks, configured, client);
      }
      first := observed;
      outcomes := AcquireObserved(plan, client);
      if d.attempts != old(d.attempts) {
        NoticedAll(first, client, d.bulk);
      }
    }
  }

  /** The snapshot shows what the downloader holds, if it lists it. */
  ghost predicate Current(tasks: map<string, seq<Task>>, observed: map<string, Observation>, client: string) {
    client in observed && observed[client].Seen? ==> client in tasks && observed[client] == Seen(tasks[client])
  }

  lemma ListedIsCurrent(tasks: map<string, seq<Task>>, configured: set<string>, client: string)
    ensures Current(tasks, Listed(tasks, configured), client)
  {
  }

  /** Nothing can go wrong with this candidate but the checks before its Add. */
  ghost predicate Smooth(d: Downloaders, c: Choice) {
    !d.shared && d.reliable && c.selected && c.entryKnown && d.Makes(c.want.id)
  }

  /** The acquisition belongs to a selected candidate of a known Entry. */
  ghost predicate Asked(plan: seq<Choice>, id: string) {
    exists i :: 0 <= i < |plan| && plan[i].selected && plan[i].entryKnown && plan[i].want.id == id
  }

  lemma {:induction false} NoneSelected(plan: seq<Choice>)
    requires forall i :: 0 <= i < |plan| ==> !plan[i].selected
    ensures CountSelected(plan) == 0
  {
    if plan != [] {
      NoneSelected(plan[..|plan| - 1]);
    }
  }

  lemma Weaken(tasks: map<string, seq<Task>>, observed: map<string, Observation>, matches: (string, Task) -> bool,
               done: set<string>, id: string)
    requires Bounded(tasks, observed, matches, done + {id})
    ensures id == "" ==> Bounded(tasks, observed, matches, done)
  {
  }

  /** One run under the configuration of its time. */
  datatype Run = Run(plan: seq<Choice>, configured: set<string>, client: string, reachable: bool)

  /**
   * Any number of runs with any interference between them: no downloader ever holds two tasks added for one
   * acquisition, and a downloader no run chose receives nothing.
   */
  method Cycles(d: Downloaders, runs: seq<Run>)
    requires d.Valid()
    requires forall i :: 0 <= i < |runs| ==> runs[i].configured <= d.tasks.Keys
    requires forall i, k :: 0 <= i < |runs| && 0 <= k < |runs[i].plan| ==> runs[i].plan[k].want.matches == d.matches
    modifies d
    ensures d.tasks.Keys == old(d.tasks.Keys) && AtMostOne(d.tasks)
    ensures forall c :: c in d.tasks && (forall i :: 0 <= i < |runs| ==> runs[i].client != c) ==>
              Fewer(d.tasks[c], old(d.tasks)[c])
  {
    for k := 0 to |runs|
      invariant d.Valid() && d.tasks.Keys == old(d.tasks.Keys)
      invariant forall c :: c in d.tasks && (forall i :: 0 <= i < |runs| ==> runs[i].client != c) ==>
                  Fewer(d.tasks[c], old(d.tasks)[c])
    {
      var runner := new Runner(d, runs[k].configured);
      d.Interfere();
      var outcomes, first := runner.Acquire(runs[k].plan, runs[k].client, runs[k].reachable);
    }
  }

  /**
   * As long as every run chooses the same downloader, no acquisition that starts without a task elsewhere ever has
   * two tasks anywhere, whatever others do and whatever answers are lost.
   */
  method SameClientCycles(d: Downloaders, runs: seq<Run>, client: string)
    requires d.Valid()
    requires forall i :: 0 <= i < |runs| ==> runs[i].configured <= d.tasks.Keys
    requires forall i, k :: 0 <= i < |runs| && 0 <= k < |runs[i].plan| ==> runs[i].plan[k].want.matches == d.matches
    requires forall i :: 0 <= i < |runs| ==> runs[i].client == client
    modifies d
    ensures d.tasks.Keys == old(d.tasks.Keys)
    ensures forall id :: id != "" && OnlyAt(old(d.tasks), id, client) ==>
      OnlyAt(d.tasks, id, client) && Total(d.tasks, id) <= 1
  {
    Cycles(d, runs);
    forall id | id != "" && OnlyAt(old(d.tasks), id, client)
      ensures OnlyAt(d.tasks, id, client) && Total(d.tasks, id) <= 1 {
      TotalOfOne(d.tasks, id, client);
    }
  }

  /** No other downloader holds a task of the acquisition. */
  ghost predicate OnlyAt(tasks: map<string, seq<Task>>, id: string, client: string) {
    forall c :: c in tasks && c != client ==> CountFor(tasks[c], id) == 0
  }

  /** A run that lists one downloader, which holds nothing, submits, whatever other downloaders hold. */
  lemma SubmitsElsewhere(w: Want, client: string, tasks: map<string, seq<Task>>)
    requires w.ready && client in tasks && tasks[client] == []
    ensures Submits(w, client, Listed(tasks, {client}))
  {
  }

  /** The want of the witness: every task found is of the wanted episode, and tasks are recognized by their ID. */
  const WANTED := Want("x", (id: string, t: Task) => t.id == id, (c: string, t: Task) => SameEpisode, true)

  /** A run configured for "a" and, after a change of configuration, one for "b" leave one task in each. */
  method ChangedDownloaderHoldsTwo() returns (d: Downloaders)
    ensures fresh(d) && d.Valid() && d.tasks.Keys == {"a", "b"}
    ensures CountFor(d.tasks["a"], "x") == 1 && CountFor(d.tasks["b"], "x") == 1 && Total(d.tasks, "x") == 2
  {
    hide Submits;
    hide Total;
    hide AtMostOne;
    hide Recognized;
    d := new Downloaders({"a", "b"}, {}, WANTED.matches, false, true, id => Task(id, Some(id)));
    ghost var empty := d.tasks;
    var plan := [Choice(true, true, WANTED)];
    SubmitsElsewhere(WANTED, "a", empty);
    var runner := new Runner(d, {"a"});
    var outcomes, first := runner.Acquire(plan, "a", true);
    ghost var once := d.tasks;
    SubmitsElsewhere(WANTED, "b", once);
    runner := new Runner(d, {"b"});
    outcomes, first := runner.Acquire(plan, "b", true);
    assert OneAdded(once, d.tasks, "b", "x", d.matches, true);
    SecondTaskIff(once, d.tasks, WANTED, "b", "a", Listed(once, {"b"}));
    OneAddedTotal(once, d.tasks, "b", "x", d.matches, true);
  }
}
