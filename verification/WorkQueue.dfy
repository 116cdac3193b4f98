/** ThreadWorkQueue (clientServerExample/ThreadWorkQueue.h): any number of threads inside getWork and
    insertWork, interleaved at every operation on the mutex, the condition variable and the queue.

    A signal wakes one waiting thread if there is one; a waiting thread wakes for no other reason. */
module WorkQueue {
  import opened Octets

  // Where a thread is. getWork goes Idle, AtGet, AboutToWait, Waiting, Woken, Popping, Popped, Idle;
  // insertWork goes Idle, AtInsert, Pushing, Pushed, Signalling, Idle.
  datatype Stage<T> =
    | Idle
    | AtGet | AboutToWait | Waiting | Woken | Popping | Popped
    | AtInsert(item: T) | Pushing(item: T) | Pushed | Signalling

  // pushed and popped record all items so far, wasted the signals that found nobody waiting,
  // broken that front and pop were called on an empty queue.
  datatype State<T> = State(
    threads: seq<Stage<T>>, holder: Option<nat>, queue: seq<T>,
    pushed: seq<T>, popped: seq<T>, wasted: nat, broken: bool)

  datatype Move<T> =
    | CallGet(thread: nat)
    | CallInsert(thread: nat, item: T)
    | Proceed(thread: nat)
    | Signal(thread: nat, woken: Option<nat>)

  // The stages in which a thread holds the mutex.
  predicate Holds<T>(stage: Stage<T>) {
    stage.AboutToWait? || stage.Popping? || stage.Popped? || stage.Pushing? || stage.Pushed?
  }

  // The stages in which a thread asks for it: calling pthread_mutex_lock or returning from the wait.
  predicate Asks<T>(stage: Stage<T>) {
    stage.AtGet? || stage.Woken? || stage.AtInsert?
  }

  predicate Enabled<T>(s: State<T>, m: Move<T>) {
    && m.thread < |s.threads| && !s.broken
    && var stage := s.threads[m.thread];
      match m
      case CallGet(_) => stage.Idle?
      case CallInsert(_, _) => stage.Idle?
      case Proceed(_) => Holds(stage) || (Asks(stage) && s.holder.None?)
      case Signal(_, None) => stage.Signalling? && forall j | 0 <= j < |s.threads| :: !s.threads[j].Waiting?
      case Signal(_, Some(j)) => stage.Signalling? && j < |s.threads| && s.threads[j].Waiting?
  }

  function Go<T>(s: State<T>, i: nat, stage: Stage<T>, holder: Option<nat>): State<T>
    requires i < |s.threads|
  {
    s.(threads := s.threads[i := stage], holder := holder)
  }

  function After<T>(s: State<T>, m: Move<T>): State<T>
    requires Enabled(s, m)
  {
    var i := m.thread;
    match m
    case CallGet(_) => Go(s, i, AtGet, s.holder)
    case CallInsert(_, item) => Go(s, i, AtInsert(item), s.holder)
    case Signal(_, None) => Go(s, i, Idle, s.holder).(wasted := s.wasted + 1)
    case Signal(_, Some(j)) => s.(threads := s.threads[i := Idle][j := Woken])
    case Proceed(_) =>
      match s.threads[i]
      case AtGet => Go(s, i, AboutToWait, Some(i))
      case AboutToWait => Go(s, i, Waiting, None)
      case Woken => Go(s, i, Popping, Some(i))
      case Popping =>
        if s.queue == [] then s.(broken := true)
        else Go(s, i, Popped, s.holder).(queue := s.queue[1..], popped := s.popped + [s.queue[0]])
      case Popped => Go(s, i, Idle, None)
      case AtInsert(item) => Go(s, i, Pushing(item), Some(i))
      case Pushing(item) => Go(s, i, Pushed, s.holder).(queue := s.queue + [item], pushed := s.pushed + [item])
      case Pushed => Go(s, i, Signalling, None)
      case _ => s
  }

  function Start<T>(threads: nat): State<T> {
    State(seq(threads, i => Idle), None, [], [], [], 0, false)
  }

  ghost predicate Leads<T(!new)>(start: State<T>, moves: seq<Move<T>>, s: State<T>)
    decreases |moves|
  {
    if moves == [] then s == start
    else
      var n := |moves| - 1;
      exists before :: Leads(start, moves[..n], before) && Enabled(before, moves[n]) && s == After(before, moves[n])
  }

  // ---------- Counting threads ----------

  predicate MayPop<T>(stage: Stage<T>) {
    stage.Woken? || stage.Popping?
  }

  predicate MustSignal<T>(stage: Stage<T>) {
    stage.Pushed? || stage.Signalling?
  }

  function One(b: bool): nat {
    if b then 1 else 0
  }

  function Count<T>(threads: seq<Stage<T>>, p: Stage<T> -> bool): nat {
    if threads == [] then 0 else One(p(threads[0])) + Count(threads[1..], p)
  }

  lemma {:induction false} CountUpdate<T>(threads: seq<Stage<T>>, i: nat, stage: Stage<T>, p: Stage<T> -> bool)
    requires i < |threads|
    ensures Count(threads[i := stage], p) + One(p(threads[i])) == Count(threads, p) + One(p(stage))
  {
    if i == 0 {
      assert threads[0 := stage][1..] == threads[1..];
    } else {
      assert threads[i := stage][1..] == threads[1..][i - 1 := stage];
      CountUpdate(threads[1..], i - 1, stage, p);
    }
  }

  lemma {:induction false} CountHas<T>(threads: seq<Stage<T>>, i: nat, p: Stage<T> -> bool)
    requires i < |threads| && p(threads[i])
    ensures Count(threads, p) >= 1
  {
    if i != 0 {
      CountHas(threads[1..], i - 1, p);
    }
  }

  lemma {:induction false} CountNone<T>(threads: seq<Stage<T>>, p: Stage<T> -> bool)
    requires forall i | 0 <= i < |threads| :: !p(threads[i])
    ensures Count(threads, p) == 0
  {
    if threads != [] {
      CountNone(threads[1..], p);
    }
  }

  // ---------- The invariant ----------

  // Every item in the queue is accounted for by a thread that has been woken for one and has not
  // taken it, a thread that has pushed one and not yet signalled, or a signal that was wasted.
  ghost predicate Conserved<T>(s: State<T>) {
    |s.queue| == Count(s.threads, MayPop) + Count(s.threads, MustSignal) + s.wasted
  }

  ghost predicate Exclusive<T>(s: State<T>) {
    forall i | 0 <= i < |s.threads| :: Holds(s.threads[i]) <==> s.holder == Some(i)
  }

  ghost predicate Invariant<T>(s: State<T>) {
    && Conserved(s) && Exclusive(s) && !s.broken
    && s.pushed == s.popped + s.queue
  }

  lemma GoCounts<T>(s: State<T>, i: nat, stage: Stage<T>)
    requires i < |s.threads|
    ensures var threads := s.threads[i := stage];
      && Count(threads, MayPop) + One(MayPop(s.threads[i])) == Count(s.threads, MayPop) + One(MayPop(stage))
      && Count(threads, MustSignal) + One(MustSignal(s.threads[i])) == Count(s.threads, MustSignal) + One(MustSignal(stage))
  {
    CountUpdate(s.threads, i, stage, MayPop);
    CountUpdate(s.threads, i, stage, MustSignal);
  }

  lemma ProceedKeepsInvariant<T>(s: State<T>, i: nat)
    requires Invariant(s) && Enabled(s, Proceed(i))
    ensures Invariant(After(s, Proceed(i)))
  {
    hide Count;
    if s.threads[i].Popping? {
      CountHas(s.threads, i, MayPop);
      GoCounts(s, i, Popped);
      assert s.popped + s.queue == s.popped + [s.queue[0]] + s.queue[1..];
    } else {
      GoCounts(s, i, After(s, Proceed(i)).threads[i]);
      if s.threads[i].Pushing? {
        assert s.popped + s.queue + [s.threads[i].item] == s.popped + (s.queue + [s.threads[i].item]);
      }
    }
  }

  lemma MoveKeepsInvariant<T>(s: State<T>, m: Move<T>)
    requires Invariant(s) && Enabled(s, m)
    ensures Invariant(After(s, m))
  {
    hide Count;
    var i := m.thread;
    match m
    case Proceed(_) => ProceedKeepsInvariant(s, i);
    case CallGet(_) => GoCounts(s, i, AtGet);
    case CallInsert(_, item) => GoCounts(s, i, AtInsert(item));
    case Signal(_, None) => GoCounts(s, i, Idle);
    case Signal(_, Some(j)) =>
      GoCounts(s, i, Idle);
      GoCounts(s.(threads := s.threads[i := Idle]), j, Woken);
  }

  // ---------- Theorems ----------

  // In every state that any number of threads reach in any interleaving.
  lemma {:induction false} EveryRunKeepsInvariant<T(!new)>(threads: nat, moves: seq<Move<T>>, s: State<T>)
    requires Leads(Start(threads), moves, s)
    ensures Invariant(s)
    decreases |moves|
  {
    hide Invariant, After, Enabled;
    if moves == [] {
      StartIsInvariant<T>(threads);
    } else {
      var n := |moves| - 1;
      var before :| Leads(Start(threads), moves[..n], before) && Enabled(before, moves[n]) && s == After(before, moves[n]);
      EveryRunKeepsInvariant(threads, moves[..n], before);
      MoveKeepsInvariant(before, moves[n]);
    }
  }

  lemma StartIsInvariant<T>(threads: nat)
    ensures Invariant(Start<T>(threads))
  {
    var s := Start<T>(threads);
    CountNone(s.threads, MayPop);
    CountNone(s.threads, MustSignal);
  }

  // No thread takes from an empty queue, and at most one thread is in a critical section.
  lemma NoPopOnEmpty<T(!new)>(threads: nat, moves: seq<Move<T>>, s: State<T>, i: nat)
    requires Leads(Start(threads), moves, s) && i < |s.threads| && MayPop(s.threads[i])
    ensures s.queue != [] && !s.broken
    ensures s.threads[i].Popping? ==> forall j | 0 <= j < |s.threads| && j != i :: !Holds(s.threads[j])
  {
    EveryRunKeepsInvariant(threads, moves, s);
    CountHas(s.threads, i, MayPop);
  }

  // What has been taken is a prefix of what has been inserted, in order.
  lemma TakenInOrder<T(!new)>(threads: nat, moves: seq<Move<T>>, s: State<T>)
    requires Leads(Start(threads), moves, s)
    ensures s.popped <= s.pushed && s.queue == s.pushed[|s.popped|..]
  {
    EveryRunKeepsInvariant(threads, moves, s);
  }

  // When no thread is under way to the queue, the items left in it are as many as the signals that
  // found nobody waiting: getWork waits for a signal even when there is work.
  lemma LeftBehind<T(!new)>(threads: nat, moves: seq<Move<T>>, s: State<T>)
    requires Leads(Start(threads), moves, s)
    requires forall i | 0 <= i < |s.threads| :: s.threads[i].Idle? || s.threads[i].Waiting?
    ensures |s.queue| == s.wasted == Made(moves, IsWasted)
  {
    EveryRunKeepsInvariant(threads, moves, s);
    EveryRunTallies(threads, moves, s);
    CountNone(s.threads, MayPop);
    CountNone(s.threads, MustSignal);
  }

  // ---------- What the moves of a run come to ----------

  predicate IsWasted<T>(m: Move<T>) {
    m.Signal? && m.woken == None
  }

  predicate IsSignal<T>(m: Move<T>) {
    m.Signal?
  }

  predicate IsGet<T>(m: Move<T>) {
    m.CallGet?
  }

  function Made<T>(moves: seq<Move<T>>, kind: Move<T> -> bool): nat {
    if moves == [] then 0 else Made(moves[..|moves| - 1], kind) + One(kind(moves[|moves| - 1]))
  }

  // Inside getWork, with its item still to be taken.
  predicate Getting<T>(stage: Stage<T>) {
    stage.AtGet? || stage.AboutToWait? || stage.Waiting? || MayPop(stage)
  }

  // The items that insertWork was called with, and those of them that are not in the queue yet.
  ghost function Inserted<T>(moves: seq<Move<T>>): multiset<T> {
    if moves == [] then multiset{}
    else
      var n := |moves| - 1;
      Inserted(moves[..n]) + if moves[n].CallInsert? then multiset{moves[n].item} else multiset{}
  }

  ghost function Carried<T>(stage: Stage<T>): multiset<T> {
    if stage.AtInsert? || stage.Pushing? then multiset{stage.item} else multiset{}
  }

  ghost function Underway<T>(threads: seq<Stage<T>>): multiset<T> {
    if threads == [] then multiset{} else Carried(threads[0]) + Underway(threads[1..])
  }

  lemma {:induction false} UnderwayUpdate<T>(threads: seq<Stage<T>>, i: nat, stage: Stage<T>)
    requires i < |threads|
    ensures Underway(threads[i := stage]) + Carried(threads[i]) == Underway(threads) + Carried(stage)
  {
    hide Carried;
    if i == 0 {
      assert threads[0 := stage][1..] == threads[1..];
      assert Carried(stage) + Underway(threads[1..]) + Carried(threads[0])
          == Carried(threads[0]) + Underway(threads[1..]) + Carried(stage);
    } else {
      assert threads[i := stage][1..] == threads[1..][i - 1 := stage];
      UnderwayUpdate(threads[1..], i - 1, stage);
      SumShift(Carried(threads[0]), Underway(threads[1..][i - 1 := stage]), Carried(threads[i]),
               Underway(threads[1..]), Carried(stage));
    }
  }

  lemma SumShift<T>(a: multiset<T>, b: multiset<T>, c: multiset<T>, d: multiset<T>, e: multiset<T>)
    requires b + c == d + e
    ensures a + b + c == a + d + e
  {
    assert a + b + c == a + (b + c) && a + d + e == a + (d + e);
  }

  lemma {:induction false} UnderwayNone<T>(threads: seq<Stage<T>>)
    requires forall i | 0 <= i < |threads| :: threads[i].Idle?
    ensures Underway(threads) == multiset{}
  {
    if threads != [] {
      UnderwayNone(threads[1..]);
    }
  }

  // Signals are wasted, items pushed and popped, just as the moves say: each insertion signals once,
  // the wasted signals are those that woke nobody, each call to getWork takes one item, and what is
  // pushed is what insertWork was called with.
  ghost predicate Tallied<T>(moves: seq<Move<T>>, s: State<T>) {
    MovesCounted(moves, s) && ItemsKept(moves, s)
  }

  ghost predicate MovesCounted<T>(moves: seq<Move<T>>, s: State<T>) {
    && s.wasted == Made(moves, IsWasted)
    && |s.pushed| == Made(moves, IsSignal) + Count(s.threads, MustSignal)
    && Made(moves, IsGet) == |s.popped| + Count(s.threads, Getting)
  }

  ghost predicate ItemsKept<T>(moves: seq<Move<T>>, s: State<T>) {
    Inserted(moves) == multiset(s.pushed) + Underway(s.threads)
  }

  // i is the thread that moves; it comes to have the item it was called with, or its item is pushed.
  lemma ItemsStayKept<T>(moves: seq<Move<T>>, s: State<T>, m: Move<T>, s': State<T>, i: nat)
    requires ItemsKept(moves, s) && i < |s.threads| == |s'.threads| && s'.threads == s.threads[i := s'.threads[i]]
    requires s.pushed <= s'.pushed
    requires multiset(s'.pushed[|s.pushed|..]) + Carried(s'.threads[i])
          == Carried(s.threads[i]) + if m.CallInsert? then multiset{m.item} else multiset{}
    ensures ItemsKept(moves + [m], s')
  {
    hide Carried, Inserted, Underway;
    var added := s'.pushed[|s.pushed|..];
    var came := if m.CallInsert? then multiset{m.item} else multiset{};
    InsertedOne(moves, m);
    UnderwayUpdate(s.threads, i, s'.threads[i]);
    assert s'.pushed == s.pushed + added;
    Accounts(Inserted(moves), multiset(s.pushed), multiset(added), came, Underway(s.threads), Underway(s'.threads),
             Carried(s.threads[i]), Carried(s'.threads[i]));
  }

  lemma Accounts<T>(inserted: multiset<T>, pushed: multiset<T>, added: multiset<T>, came: multiset<T>,
                    before: multiset<T>, behind: multiset<T>, had: multiset<T>, has: multiset<T>)
    requires inserted == pushed + before && behind + had == before + has && added + has == had + came
    ensures inserted + came == pushed + added + behind
  {
    forall x | x in inserted + came || x in pushed + added + behind
      ensures (inserted + came)[x] == (pushed + added + behind)[x]
    {
      assert (behind + had)[x] == (before + has)[x] && (added + has)[x] == (had + came)[x];
    }
  }

  lemma GoTallies<T>(s: State<T>, i: nat, stage: Stage<T>)
    requires i < |s.threads|
    ensures var threads := s.threads[i := stage];
      && Count(threads, MustSignal) + One(MustSignal(s.threads[i])) == Count(s.threads, MustSignal) + One(MustSignal(stage))
      && Count(threads, Getting) + One(Getting(s.threads[i])) == Count(s.threads, Getting) + One(Getting(stage))
  {
    CountUpdate(s.threads, i, stage, MustSignal);
    CountUpdate(s.threads, i, stage, Getting);
  }

  lemma MadeOne<T>(moves: seq<Move<T>>, m: Move<T>)
    ensures Made(moves + [m], IsWasted) == Made(moves, IsWasted) + One(IsWasted(m))
    ensures Made(moves + [m], IsSignal) == Made(moves, IsSignal) + One(IsSignal(m))
    ensures Made(moves + [m], IsGet) == Made(moves, IsGet) + One(IsGet(m))
  {
    assert (moves + [m])[..|moves|] == moves;
  }

  lemma InsertedOne<T>(moves: seq<Move<T>>, m: Move<T>)
    ensures Inserted(moves + [m]) == Inserted(moves) + if m.CallInsert? then multiset{m.item} else multiset{}
  {
    assert (moves + [m])[..|moves|] == moves;
  }

  lemma MoveIsCounted<T>(moves: seq<Move<T>>, s: State<T>, m: Move<T>)
    requires MovesCounted(moves, s) && Enabled(s, m) && !After(s, m).broken
    ensures MovesCounted(moves + [m], After(s, m))
  {
    hide Count, Made;
    var i := m.thread;
    MadeOne(moves, m);
    match m
    case Proceed(_) => GoTallies(s, i, After(s, m).threads[i]);
    case CallGet(_) => GoTallies(s, i, AtGet);
    case CallInsert(_, item) => GoTallies(s, i, AtInsert(item));
    case Signal(_, None) => GoTallies(s, i, Idle);
    case Signal(_, Some(j)) =>
      GoTallies(s, i, Idle);
      GoTallies(s.(threads := s.threads[i := Idle]), j, Woken);
  }

  lemma MoveKeepsItems<T>(moves: seq<Move<T>>, s: State<T>, m: Move<T>)
    requires ItemsKept(moves, s) && Enabled(s, m) && !After(s, m).broken
    ensures ItemsKept(moves + [m], After(s, m))
  {
    hide ItemsKept;
    var i := m.thread;
    assert s.pushed[|s.pushed|..] == [];
    match m
    case Proceed(_) => ProceedKeepsItems(moves, s, i);
    case CallGet(_) => ItemsStayKept(moves, s, m, After(s, m), i);
    case CallInsert(_, _) => ItemsStayKept(moves, s, m, After(s, m), i);
    case Signal(_, None) => ItemsStayKept(moves, s, m, After(s, m), i);
    case Signal(_, Some(j)) =>
      var s1 := s.(threads := s.threads[i := Idle]);
      ItemsStayKept(moves, s, m, s1, i);
      SameItems(moves + [m], s1, j);
  }

  lemma ProceedKeepsItems<T>(moves: seq<Move<T>>, s: State<T>, i: nat)
    requires ItemsKept(moves, s) && Enabled(s, Proceed(i)) && !After(s, Proceed(i)).broken
    ensures ItemsKept(moves + [Proceed(i)], After(s, Proceed(i)))
  {
    hide ItemsKept;
    var s' := After(s, Proceed(i));
    if s.threads[i].Pushing? {
      assert s'.pushed[|s.pushed|..] == [s.threads[i].item];
    } else {
      assert s'.pushed[|s.pushed|..] == [];
    }
    ItemsStayKept(moves, s, Proceed(i), s', i);
  }

  lemma SameItems<T>(moves: seq<Move<T>>, s: State<T>, j: nat)
    requires ItemsKept(moves, s) && j < |s.threads| && s.threads[j].Waiting?
    ensures ItemsKept(moves, s.(threads := s.threads[j := Woken]))
  {
    hide Inserted;
    UnderwayUpdate(s.threads, j, Woken);
    assert Underway(s.threads) + multiset{} == Underway(s.threads);
    assert Underway(s.threads[j := Woken]) + multiset{} == Underway(s.threads[j := Woken]);
  }

  lemma {:induction false} EveryRunTallies<T(!new)>(threads: nat, moves: seq<Move<T>>, s: State<T>)
    requires Leads(Start(threads), moves, s)
    ensures Tallied(moves, s)
    decreases |moves|
  {
    hide MovesCounted, ItemsKept, Invariant, After, Enabled;
    if moves == [] {
      StartTallies<T>(threads);
    } else {
      var n := |moves| - 1;
      var before :| Leads(Start(threads), moves[..n], before) && Enabled(before, moves[n]) && s == After(before, moves[n]);
      EveryRunTallies(threads, moves[..n], before);
      EveryRunKeepsInvariant(threads, moves, s);
      NotBroken(s);
      MoveIsCounted(moves[..n], before, moves[n]);
      MoveKeepsItems(moves[..n], before, moves[n]);
      assert moves[..n] + [moves[n]] == moves;
    }
  }

  lemma NotBroken<T>(s: State<T>)
    requires Invariant(s)
    ensures !s.broken
  {
    hide Conserved, Exclusive;
  }

  lemma StartTallies<T>(threads: nat)
    ensures Tallied([], Start<T>(threads))
  {
    var s := Start<T>(threads);
    CountNone(s.threads, Getting);
    CountNone(s.threads, MustSignal);
    UnderwayNone(s.threads);
  }

  // ---------- What one call does ----------

  lemma LeadsOne<T(!new)>(start: State<T>, moves: seq<Move<T>>, before: State<T>, m: Move<T>, s: State<T>, all: seq<Move<T>>)
    requires Leads(start, moves, before) && Enabled(before, m) && s == After(before, m) && all == moves + [m]
    ensures Leads(start, all, s)
  {
    hide Enabled, After;
    assert all[..|moves|] == moves;
  }

  // The state in which a call finds the mutex free.
  ghost predicate Free<T>(s: State<T>, i: nat) {
    i < |s.threads| && s.threads[i].Idle? && s.holder == None && !s.broken
  }

  lemma LeadsNone<T(!new)>(s: State<T>)
    ensures Leads(s, [], s)
  {
  }

  // getWork comes to its wait and leaves the mutex free.
  lemma GetWorkWaits<T(!new)>(s: State<T>, i: nat)
    requires Free(s, i)
    ensures Leads(s, [CallGet(i), Proceed(i), Proceed(i)], s.(threads := s.threads[i := Waiting]))
  {
    hide Leads;
    var a := After(s, CallGet(i));
    var b := After(a, Proceed(i));
    var c := After(b, Proceed(i));
    LeadsNone(s);
    LeadsOne(s, [], s, CallGet(i), a, [CallGet(i)]);
    LeadsOne(s, [CallGet(i)], a, Proceed(i), b, [CallGet(i), Proceed(i)]);
    LeadsOne(s, [CallGet(i), Proceed(i)], b, Proceed(i), c, [CallGet(i), Proceed(i), Proceed(i)]);
    assert c == s.(threads := s.threads[i := Waiting]);
  }

  // insertWork appends its item and comes to its signal, again with the mutex free.
  lemma InsertWorkSignals<T(!new)>(s: State<T>, i: nat, item: T)
    requires Free(s, i)
    ensures Leads(s, [CallInsert(i, item), Proceed(i), Proceed(i), Proceed(i)],
      s.(threads := s.threads[i := Signalling], queue := s.queue + [item], pushed := s.pushed + [item]))
  {
    hide Leads;
    var call := CallInsert(i, item);
    var a := After(s, call);
    var b := After(a, Proceed(i));
    var c := After(b, Proceed(i));
    var d := After(c, Proceed(i));
    LeadsNone(s);
    LeadsOne(s, [], s, call, a, [call]);
    LeadsOne(s, [call], a, Proceed(i), b, [call, Proceed(i)]);
    LeadsOne(s, [call, Proceed(i)], b, Proceed(i), c, [call, Proceed(i), Proceed(i)]);
    LeadsOne(s, [call, Proceed(i), Proceed(i)], c, Proceed(i), d, [call, Proceed(i), Proceed(i), Proceed(i)]);
    assert d == s.(threads := s.threads[i := Signalling], queue := s.queue + [item], pushed := s.pushed + [item]);
  }

  // A thread that has been woken takes the front of the queue.
  lemma WokenTakesFront<T(!new)>(s: State<T>, j: nat)
    requires j < |s.threads| && s.threads[j].Woken? && s.holder == None && !s.broken && s.queue != []
    ensures Leads(s, [Proceed(j), Proceed(j), Proceed(j)],
      s.(threads := s.threads[j := Idle], queue := s.queue[1..], popped := s.popped + [s.queue[0]]))
  {
    hide Leads;
    var a := After(s, Proceed(j));
    var b := After(a, Proceed(j));
    var c := After(b, Proceed(j));
    LeadsNone(s);
    LeadsOne(s, [], s, Proceed(j), a, [Proceed(j)]);
    LeadsOne(s, [Proceed(j)], a, Proceed(j), b, [Proceed(j), Proceed(j)]);
    LeadsOne(s, [Proceed(j), Proceed(j)], b, Proceed(j), c, [Proceed(j), Proceed(j), Proceed(j)]);
    assert c == s.(threads := s.threads[j := Idle], queue := s.queue[1..], popped := s.popped + [s.queue[0]]);
  }

  lemma {:induction false} LeadsOn<T(!new)>(start: State<T>, moves: seq<Move<T>>, s: State<T>, more: seq<Move<T>>, s': State<T>)
    requires Leads(start, moves, s) && Leads(s, more, s')
    ensures Leads(start, moves + more, s')
    decreases |more|
  {
    hide Enabled, After;
    if more == [] {
      assert moves + more == moves;
    } else {
      var n := |more| - 1;
      var before :| Leads(s, more[..n], before) && Enabled(before, more[n]) && s' == After(before, more[n]);
      LeadsOn(start, moves, s, more[..n], before);
      LeadsOne(start, moves + more[..n], before, more[n], s', moves + more);
    }
  }

  lemma InsertionWakes<T(!new)>(s: State<T>, i: nat, item: T, j: nat)
    requires Free(s, i) && j < |s.threads| && s.threads[j].Waiting?
    ensures Leads(s, [CallInsert(i, item), Proceed(i), Proceed(i), Proceed(i), Signal(i, Some(j))],
      s.(threads := s.threads[j := Woken], queue := s.queue + [item], pushed := s.pushed + [item]))
  {
    hide Leads, After, Enabled;
    InsertWorkSignals(s, i, item);
    var pushed := s.(threads := s.threads[i := Signalling], queue := s.queue + [item], pushed := s.pushed + [item]);
    var woken := s.(threads := s.threads[j := Woken], queue := s.queue + [item], pushed := s.pushed + [item]);
    SignalWakes(pushed, i, j);
    assert s.threads[i := Signalling][i := Idle][j := Woken] == s.threads[j := Woken];
    LeadsOne(s, [CallInsert(i, item), Proceed(i), Proceed(i), Proceed(i)], pushed, Signal(i, Some(j)), woken,
             [CallInsert(i, item), Proceed(i), Proceed(i), Proceed(i), Signal(i, Some(j))]);
  }

  // From every state that a run has come to, an insertion that finds the mutex free wakes a waiting
  // thread, whichever one, and that thread can then take what is at the front of the queue.
  lemma InsertionIsTaken<T(!new)>(threads: nat, moves: seq<Move<T>>, s: State<T>, i: nat, item: T, j: nat)
    requires Leads(Start(threads), moves, s) && Free(s, i)
    requires j < |s.threads| && s.threads[j].Waiting?
    ensures var queue := s.queue + [item];
      var insert := [CallInsert(i, item), Proceed(i), Proceed(i), Proceed(i), Signal(i, Some(j))];
      var woken := s.(threads := s.threads[j := Woken], queue := queue, pushed := s.pushed + [item]);
      && Leads(Start(threads), moves + insert, woken)
      && Leads(Start(threads), moves + insert + [Proceed(j), Proceed(j), Proceed(j)],
               woken.(threads := s.threads[j := Idle], queue := queue[1..], popped := s.popped + [queue[0]]))
  {
    hide Leads;
    var insert := [CallInsert(i, item), Proceed(i), Proceed(i), Proceed(i), Signal(i, Some(j))];
    var woken := s.(threads := s.threads[j := Woken], queue := s.queue + [item], pushed := s.pushed + [item]);
    var end := woken.(threads := s.threads[j := Idle], queue := woken.queue[1..], popped := s.popped + [woken.queue[0]]);
    InsertionWakes(s, i, item, j);
    LeadsOn(Start(threads), moves, s, insert, woken);
    WokenTakesFront(woken, j);
    assert woken.threads[j := Idle] == s.threads[j := Idle];
    LeadsOn(Start(threads), moves + insert, woken, [Proceed(j), Proceed(j), Proceed(j)], end);
  }

  lemma SignalWakes<T>(s: State<T>, i: nat, j: nat)
    requires i < |s.threads| && j < |s.threads| && s.threads[i].Signalling? && s.threads[j].Waiting? && !s.broken
    ensures Enabled(s, Signal(i, Some(j)))
    ensures After(s, Signal(i, Some(j))) == s.(threads := s.threads[i := Idle][j := Woken])
  {
  }

  // Only when nobody waits is the signal wasted.
  lemma InsertionIsUnheard<T(!new)>(s: State<T>, i: nat, item: T)
    requires Free(s, i) && forall j | 0 <= j < |s.threads| :: !s.threads[j].Waiting?
    ensures Leads(s, [CallInsert(i, item), Proceed(i), Proceed(i), Proceed(i), Signal(i, None)],
      s.(queue := s.queue + [item], pushed := s.pushed + [item], wasted := s.wasted + 1))
  {
    hide Leads;
    InsertWorkSignals(s, i, item);
    var insert := [CallInsert(i, item), Proceed(i), Proceed(i), Proceed(i)];
    var pushed := s.(threads := s.threads[i := Signalling], queue := s.queue + [item], pushed := s.pushed + [item]);
    var end := After(pushed, Signal(i, None));
    assert s.threads[i := Signalling][i := Idle] == s.threads;
    LeadsOne(s, insert, pushed, Signal(i, None), end, insert + [Signal(i, None)]);
    assert insert + [Signal(i, None)] == [CallInsert(i, item), Proceed(i), Proceed(i), Proceed(i), Signal(i, None)];
    assert end == s.(queue := s.queue + [item], pushed := s.pushed + [item], wasted := s.wasted + 1);
  }
}
