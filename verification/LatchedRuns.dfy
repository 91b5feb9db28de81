/** Commands under latches: tasks that take their latches, read key by key, write
    one batch and let go, in every interleaving. */
module LatchedRuns {
  import opened Codec
  import opened Options
  import opened MvccModel
  import opened MvccTxns
  import opened Commands
  import opened CommandLaws
  import opened TxnRuns
  import opened Latching

  type TaskId = nat

  datatype Phase =
    | Waiting
    | Working(turn: nat, acc: Acc)
    | Written(reply: Response)
    | Done(reply: Response)

  datatype Task = Task(cmd: Command, phase: Phase)

  /** `log` lists the tasks in the order in which they wrote or gave up. */
  datatype World = World(db: Db, latches: map<Key, TaskId>, tasks: map<TaskId, Task>, log: seq<TaskId>)

  datatype Action =
    | Submit(id: TaskId, cmd: Command)
    | Acquire(id: TaskId)
    | Turn(id: TaskId)
    | WriteBatch(id: TaskId)
    | Release(id: TaskId)

  predicate Holding(t: Task) {
    t.phase.Working? || t.phase.Written?
  }

  /** All turns are done, or an error has ended the command early. */
  predicate Finished(cmd: Command, turn: nat, acc: Acc) {
    acc.stopped || turn == |Items(cmd)|
  }

  predicate Enabled(w: World, a: Action) {
    match a
    case Submit(id, _) => id !in w.tasks
    case Acquire(id) => id in w.tasks && w.tasks[id].phase.Waiting?
    case Turn(id) =>
      && id in w.tasks && w.tasks[id].phase.Working?
      && !Finished(w.tasks[id].cmd, w.tasks[id].phase.turn, w.tasks[id].phase.acc)
      && w.tasks[id].phase.turn < |Items(w.tasks[id].cmd)|
    case WriteBatch(id) =>
      && id in w.tasks && w.tasks[id].phase.Working?
      && Finished(w.tasks[id].cmd, w.tasks[id].phase.turn, w.tasks[id].phase.acc)
      && Writes(w.tasks[id].phase.acc)
    case Release(id) =>
      id in w.tasks &&
      (w.tasks[id].phase.Written? ||
       (w.tasks[id].phase.Working? && Finished(w.tasks[id].cmd, w.tasks[id].phase.turn, w.tasks[id].phase.acc) &&
        !Writes(w.tasks[id].phase.acc)))
  }

  function SetPhase(w: World, id: TaskId, p: Phase): World
    requires id in w.tasks
  {
    w.(tasks := w.tasks[id := w.tasks[id].(phase := p)])
  }

  function Do(w: World, a: Action): World
    requires Enabled(w, a)
  {
    match a
    case Submit(id, cmd) => w.(tasks := w.tasks[id := Task(cmd, Waiting)])
    case Acquire(id) =>
      var cmd := w.tasks[id].cmd;
      if AllFree(w.latches, Keys(cmd))
        then SetPhase(w, id, Working(0, EMPTY)).(latches := Taken(w.latches, Keys(cmd), id)) else w
    case Turn(id) =>
      var Task(cmd, Working(turn, acc)) := w.tasks[id];
      ItemFits(cmd, turn);
      SetPhase(w, id, Working(turn + 1, Step(cmd, acc, Items(cmd)[turn], w.db)))
    case WriteBatch(id) =>
      var Task(cmd, Working(_, acc)) := w.tasks[id];
      SetPhase(w, id, Written(Reply(acc))).(db := ApplyAll(w.db, acc.ops), log := w.log + [id])
    case Release(id) =>
      var Task(cmd, phase) := w.tasks[id];
      var w' := w.(latches := Released(w.latches, Keys(cmd)));
      if phase.Written? then SetPhase(w', id, Done(phase.reply))
      else SetPhase(w', id, Done(Reply(phase.acc))).(log := w.log + [id])
  }

  // ---- Commands only see and touch their own keys ----

  ghost predicate SameOn(db: Db, db': Db, k: Key) {
    LockAt(db, k) == LockAt(db', k) && forall t: U64 {:trigger (k, t)} :: WriteAt(db, (k, t)) == WriteAt(db', (k, t))
  }

  lemma {:induction false} LatestLocal(db: Db, db': Db, k: Key, t: U64)
    requires SameOn(db, db', k)
    ensures Latest(db.writes, k, t) == Latest(db'.writes, k, t)
    decreases t
  {
    assert WriteAt(db, (k, t)) == WriteAt(db', (k, t));
    if t > 0 { LatestLocal(db, db', k, t - 1); }
  }

  lemma {:induction false} StepLocal(cmd: Command, db: Db, db': Db, acc: Acc, item: Item)
    requires Fits(cmd, item) && SameOn(db, db', KeyOf(item))
    ensures Step(cmd, acc, item, db) == Step(cmd, acc, item, db')
  {
    LatestLocal(db, db', KeyOf(item), cmd.startTs);
    assert WriteAt(db, (KeyOf(item), cmd.startTs)) == WriteAt(db', (KeyOf(item), cmd.startTs));
  }

  /** What a command gathers depends only on the data of its own keys. */
  lemma {:induction false} GatherLocal(cmd: Command, db: Db, db': Db, n: nat)
    requires n <= |Items(cmd)| && forall k :: k in Keys(cmd) ==> SameOn(db, db', k)
    ensures Gather(cmd, db, n) == Gather(cmd, db', n)
  {
    if n > 0 {
      GatherLocal(cmd, db, db', n - 1);
      ItemFits(cmd, n - 1);
      StepLocal(cmd, db, db', Gather(cmd, db, n - 1), Items(cmd)[n - 1]);
    }
  }

  lemma {:induction false} BatchLocal(cmd: Command, db: Db, n: nat, k: Key)
    requires n <= |Items(cmd)| && k !in Keys(cmd)
    ensures SameOn(db, ApplyAll(db, Gather(cmd, db, n).ops), k)
  {
    var ops := Gather(cmd, db, n).ops;
    GatherAllowed(cmd, db, n);
    forall i | 0 <= i < |ops| ensures ops[i].key != k {
      assert Allowed(cmd, db, ops[i]);
    }
    LockKept(db, ops, k);
    forall t: U64 ensures WriteAt(db, (k, t)) == WriteAt(ApplyAll(db, ops), (k, t)) {
      WriteKept(db, ops, (k, t));
    }
  }

  lemma {:induction false} RunAllAppend(db: Db, cmds: seq<Command>, cmd: Command)
    ensures RunAll(db, cmds + [cmd]) == After(cmd, RunAll(db, cmds))
    decreases |cmds|
  {
    if |cmds| == 0 {
      assert (cmds + [cmd])[1..] == [];
    } else {
      assert (cmds + [cmd])[1..] == cmds[1..] + [cmd];
      RunAllAppend(After(cmds[0], db), cmds[1..], cmd);
    }
  }

  // ---- The invariant ----

  function Cmds(w: World, log: seq<TaskId>): seq<Command>
    requires forall i :: 0 <= i < |log| ==> log[i] in w.tasks
  {
    seq(|log|, i requires 0 <= i < |log| => w.tasks[log[i]].cmd)
  }

  /** Task `id` stands at place `p` of the log and was answered as if it had run alone
      there. */
  ghost predicate AnsweredAt(db0: Db, w: World, id: TaskId, reply: Response, p: nat)
    requires forall i :: 0 <= i < |w.log| ==> w.log[i] in w.tasks
  {
    p < |w.log| && w.log[p] == id && reply == ReplyTo(w.tasks[id].cmd, RunAll(db0, Cmds(w, w.log)[..p]))
  }

  ghost predicate KeyHeld(w: World, id: TaskId, k: Key) {
    id in w.tasks && Holding(w.tasks[id]) && k in Keys(w.tasks[id].cmd)
  }

  /** The latch map is exactly the keys of the tasks that hold latches. */
  ghost predicate LatchesExact(w: World) {
    && (forall id, k :: KeyHeld(w, id, k) ==> k in w.latches && w.latches[k] == id)
    && (forall k :: k in w.latches ==> KeyHeld(w, w.latches[k], k))
  }

  /** A task at work has read what it would read now. */
  ghost predicate Current(w: World, id: TaskId)
    requires id in w.tasks
  {
    var Task(cmd, phase) := w.tasks[id];
    phase.Working? ==> phase.turn <= |Items(cmd)| && phase.acc == Gather(cmd, w.db, phase.turn)
  }

  ghost predicate Settled(db0: Db, w: World, id: TaskId)
    requires id in w.tasks && forall i :: 0 <= i < |w.log| ==> w.log[i] in w.tasks
  {
    var phase := w.tasks[id].phase;
    phase.Written? || phase.Done? ==> exists p: nat :: AnsweredAt(db0, w, id, phase.reply, p)
  }

  ghost predicate Invariant(db0: Db, w: World) {
    && LatchesExact(w)
    && (forall i :: 0 <= i < |w.log| ==> w.log[i] in w.tasks)
    && (forall id {:trigger Current(w, id)} :: id in w.tasks ==> Current(w, id))
    && (forall id {:trigger Settled(db0, w, id)} :: id in w.tasks ==> Settled(db0, w, id))
    && w.db == RunAll(db0, Cmds(w, w.log))
  }

  // ---- Every step keeps it ----

  lemma {:induction false} HeldStep(w: World, a: Action, id: TaskId, k: Key)
    requires LatchesExact(w) && Enabled(w, a) && KeyHeld(Do(w, a), id, k)
    ensures k in Do(w, a).latches && Do(w, a).latches[k] == id
  {
    if KeyHeld(w, id, k) {
      assert k in w.latches && w.latches[k] == id;
      if a.Release? && k in Keys(w.tasks[a.id].cmd) { assert KeyHeld(w, a.id, k); }
    }
  }

  lemma {:induction false} LatchStep(w: World, a: Action, k: Key)
    requires LatchesExact(w) && Enabled(w, a) && k in Do(w, a).latches
    ensures KeyHeld(Do(w, a), Do(w, a).latches[k], k)
  {
    if k in w.latches { assert KeyHeld(w, w.latches[k], k); }
  }

  lemma {:induction false} LatchesStep(w: World, a: Action)
    requires LatchesExact(w) && Enabled(w, a)
    ensures LatchesExact(Do(w, a))
  {
    var w' := Do(w, a);
    forall id, k | KeyHeld(w', id, k) ensures k in w'.latches && w'.latches[k] == id { HeldStep(w, a, id, k); }
    forall k | k in w'.latches ensures KeyHeld(w', w'.latches[k], k) { LatchStep(w, a, k); }
  }

  /** Two tasks that hold latches have no key in common. */
  lemma {:induction false} HeldKeysDisjoint(w: World, i: TaskId, j: TaskId, k: Key)
    requires LatchesExact(w) && i in w.tasks && j in w.tasks && i != j
    requires Holding(w.tasks[i]) && Holding(w.tasks[j]) && k in Keys(w.tasks[i].cmd)
    ensures k !in Keys(w.tasks[j].cmd)
  {
    assert KeyHeld(w, i, k);
    if k in Keys(w.tasks[j].cmd) { assert KeyHeld(w, j, k); }
  }

  lemma {:induction false} CurrentStep(w: World, a: Action, id: TaskId)
    requires Enabled(w, a) && LatchesExact(w) && id in Do(w, a).tasks
    requires forall j {:trigger Current(w, j)} :: j in w.tasks ==> Current(w, j)
    ensures Current(Do(w, a), id)
  {
    var w' := Do(w, a);
    if id in w.tasks {
      assert Current(w, id);
      if a.WriteBatch? && id != a.id && w.tasks[id].phase.Working? {
        assert Current(w, a.id);
        var Task(cmd, Working(turn, acc)) := w.tasks[a.id];
        var mine := w.tasks[id].cmd;
        forall k | k in Keys(mine) ensures SameOn(w.db, w'.db, k) {
          HeldKeysDisjoint(w, id, a.id, k);
          BatchLocal(cmd, w.db, turn, k);
        }
        GatherLocal(mine, w.db, w'.db, w.tasks[id].phase.turn);
      }
    }
  }

  /** What a finished task has gathered is what it would gather running alone now. */
  lemma {:induction false} FinishedIsFinal(w: World, id: TaskId)
    requires id in w.tasks && w.tasks[id].phase.Working? && Current(w, id)
    requires Finished(w.tasks[id].cmd, w.tasks[id].phase.turn, w.tasks[id].phase.acc)
    ensures w.tasks[id].phase.acc == Final(w.tasks[id].cmd, w.db)
  {
    var Task(cmd, Working(turn, acc)) := w.tasks[id];
    if acc.stopped { StoppedStays(cmd, w.db, turn, |Items(cmd)|); }
  }

  /** The log grows by the task that writes or gives up, and the data moves as that
      task's command, run alone, would move it. */
  lemma {:induction false} DbStep(db0: Db, w: World, a: Action)
    requires Enabled(w, a) && Invariant(db0, w)
    ensures var w' := Do(w, a);
            && (forall i :: 0 <= i < |w'.log| ==> w'.log[i] in w'.tasks)
            && w'.db == RunAll(db0, Cmds(w', w'.log))
            && Cmds(w, w.log) <= Cmds(w', w'.log)
  {
    var w' := Do(w, a);
    if w'.log != w.log {
      LogGrows(db0, w, w', a.id);
    } else {
      assert Cmds(w', w'.log) == Cmds(w, w.log);
    }
  }

  lemma {:induction false} LogGrows(db0: Db, w: World, w': World, id: TaskId)
    requires Invariant(db0, w) && id in w.tasks && w.tasks[id].phase.Working?
    requires Finished(w.tasks[id].cmd, w.tasks[id].phase.turn, w.tasks[id].phase.acc)
    requires w'.log == w.log + [id] && w'.tasks.Keys == w.tasks.Keys
    requires forall j :: j in w.tasks ==> w'.tasks[j].cmd == w.tasks[j].cmd
    requires w'.db == if Writes(w.tasks[id].phase.acc) then ApplyAll(w.db, w.tasks[id].phase.acc.ops) else w.db
    ensures forall i :: 0 <= i < |w'.log| ==> w'.log[i] in w'.tasks
    ensures w'.db == RunAll(db0, Cmds(w', w'.log))
    ensures Cmds(w, w.log) <= Cmds(w', w'.log)
  {
    assert Current(w, id);
    FinishedIsFinal(w, id);
    assert Cmds(w', w'.log) == Cmds(w, w.log) + [w.tasks[id].cmd];
    RunAllAppend(db0, Cmds(w, w.log), w.tasks[id].cmd);
  }

  /** Answers given earlier stay where they are in the log. */
  lemma {:induction false} AnswerStays(db0: Db, w: World, w': World, id: TaskId, reply: Response, p: nat)
    requires forall i :: 0 <= i < |w.log| ==> w.log[i] in w.tasks
    requires forall i :: 0 <= i < |w'.log| ==> w'.log[i] in w'.tasks
    requires w.log <= w'.log && Cmds(w, w.log) <= Cmds(w', w'.log)
    requires id in w'.tasks && id in w.tasks && w'.tasks[id].cmd == w.tasks[id].cmd
    requires AnsweredAt(db0, w, id, reply, p)
    ensures AnsweredAt(db0, w', id, reply, p)
  {
    assert Cmds(w, w.log)[..p] == Cmds(w', w'.log)[..p];
  }

  lemma {:induction false} AnswerGiven(db0: Db, w: World, w': World, id: TaskId)
    requires Invariant(db0, w) && id in w.tasks && w.tasks[id].phase.Working?
    requires Finished(w.tasks[id].cmd, w.tasks[id].phase.turn, w.tasks[id].phase.acc)
    requires w'.log == w.log + [id] && id in w'.tasks && w'.tasks[id].cmd == w.tasks[id].cmd
    requires forall i :: 0 <= i < |w'.log| ==> w'.log[i] in w'.tasks
    requires Cmds(w, w.log) <= Cmds(w', w'.log)
    ensures AnsweredAt(db0, w', id, Reply(w.tasks[id].phase.acc), |w.log|)
  {
    assert Current(w, id);
    FinishedIsFinal(w, id);
    assert Cmds(w', w'.log)[..|w.log|] == Cmds(w, w.log);
  }

  lemma {:induction false} SettledStep(db0: Db, w: World, a: Action, id: TaskId)
    requires Enabled(w, a) && Invariant(db0, w) && id in Do(w, a).tasks
    requires forall i :: 0 <= i < |Do(w, a).log| ==> Do(w, a).log[i] in Do(w, a).tasks
    ensures Settled(db0, Do(w, a), id)
  {
    var w' := Do(w, a);
    DbStep(db0, w, a);
    if id in w.tasks {
      if w.tasks[id].phase.Written? || w.tasks[id].phase.Done? {
        assert Settled(db0, w, id);
        var reply := w.tasks[id].phase.reply;
        var p: nat :| AnsweredAt(db0, w, id, reply, p);
        AnswerStays(db0, w, w', id, reply, p);
      } else if w'.tasks[id].phase.Written? || w'.tasks[id].phase.Done? {
        AnswerGiven(db0, w, w', id);
      }
    }
  }

  lemma {:induction false} InvariantStep(db0: Db, w: World, a: Action)
    requires Enabled(w, a) && Invariant(db0, w)
    ensures Invariant(db0, Do(w, a))
  {
    LatchesStep(w, a);
    DbStep(db0, w, a);
    forall id | id in Do(w, a).tasks ensures Current(Do(w, a), id) { CurrentStep(w, a, id); }
    forall id | id in Do(w, a).tasks ensures Settled(db0, Do(w, a), id) { SettledStep(db0, w, a, id); }
  }

  // ---- Every interleaving ----

  function Start(db0: Db): World {
    World(db0, map[], map[], [])
  }

  /** `ws` is a run: it starts with no task and each world follows from the one before
      by an enabled action. */
  ghost predicate IsRun(db0: Db, ws: seq<World>) {
    && |ws| > 0 && ws[0] == Start(db0)
    && forall i :: 0 < i < |ws| ==> Follows(ws[i - 1], ws[i])
  }

  ghost predicate Follows(w: World, w': World) {
    exists a :: Enabled(w, a) && Do(w, a) == w'
  }

  lemma {:induction false} StartInvariant(db0: Db)
    ensures Invariant(db0, Start(db0))
  {
    assert Cmds(Start(db0), []) == [];
  }

  lemma {:induction false} FollowsKeepsInvariant(db0: Db, w: World, w': World)
    requires Invariant(db0, w) && Follows(w, w')
    ensures Invariant(db0, w')
  {
    var a :| Enabled(w, a) && Do(w, a) == w';
    InvariantStep(db0, w, a);
  }

  lemma {:induction false} RunPrefix(db0: Db, ws: seq<World>, n: nat)
    requires IsRun(db0, ws) && 0 < n <= |ws|
    ensures IsRun(db0, ws[..n])
  {
    forall i | 0 < i < n ensures Follows(ws[..n][i - 1], ws[..n][i]) {
      assert Follows(ws[i - 1], ws[i]);
    }
  }

  lemma {:induction false} RunKeepsInvariant(db0: Db, ws: seq<World>)
    requires IsRun(db0, ws)
    ensures Invariant(db0, ws[|ws| - 1])
    decreases |ws|
  {
    var n := |ws| - 1;
    if n == 0 {
      StartInvariant(db0);
    } else {
      RunPrefix(db0, ws, n);
      RunKeepsInvariant(db0, ws[..n]);
      FollowsKeepsInvariant(db0, ws[n - 1], ws[n]);
    }
  }

  /** Latched commands refine atomic ones. Whatever the interleaving, the data is what
      running the logged commands one at a time gives; every finished task got the
      answer its command gives alone at its place in that order; held key sets are
      disjoint, their union is the latch map, and a waiting task holds nothing. */
  lemma {:induction false} LatchedRefinesAtomic(db0: Db, ws: seq<World>)
    requires IsRun(db0, ws)
    ensures var w := ws[|ws| - 1];
            && (forall i :: 0 <= i < |w.log| ==> w.log[i] in w.tasks)
            && w.db == RunAll(db0, Cmds(w, w.log))
            && (forall id :: id in w.tasks && w.tasks[id].phase.Done? ==>
                  exists p: nat :: AnsweredAt(db0, w, id, w.tasks[id].phase.reply, p))
            && (forall k :: k in w.latches <==> exists id :: KeyHeld(w, id, k))
            && (forall i, j, k ::
                  i in w.tasks && j in w.tasks && i != j && Holding(w.tasks[i]) && Holding(w.tasks[j]) ==>
                    !(k in Keys(w.tasks[i].cmd) && k in Keys(w.tasks[j].cmd)))
            && (forall k :: k in w.latches ==> w.latches[k] in w.tasks && !w.tasks[w.latches[k]].phase.Waiting?)
  {
    RunKeepsInvariant(db0, ws);
    var w := ws[|ws| - 1];
    forall id | id in w.tasks && w.tasks[id].phase.Done?
      ensures exists p: nat :: AnsweredAt(db0, w, id, w.tasks[id].phase.reply, p)
    {
      assert Settled(db0, w, id);
    }
    forall i, j, k | i in w.tasks && j in w.tasks && i != j && Holding(w.tasks[i]) && Holding(w.tasks[j])
      ensures !(k in Keys(w.tasks[i].cmd) && k in Keys(w.tasks[j].cmd))
    {
      if k in Keys(w.tasks[i].cmd) { HeldKeysDisjoint(w, i, j, k); }
    }
  }
}
