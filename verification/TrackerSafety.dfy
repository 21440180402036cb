/** What every run of the tracker keeps: the state invariant, conservation of the count, write-once
    directions, and at most one count a person. */
module TrackerSafety {
  import opened Tracker

  // ---------- the ledger ----------

  function Net(ledger: seq<Passage>): int {
    if ledger == [] then 0 else Net(ledger[..|ledger| - 1]) + Delta(ledger[|ledger| - 1].direction)
  }

  function Walked(ledger: seq<Passage>, d: Direction): nat {
    if ledger == [] then 0
    else Walked(ledger[..|ledger| - 1], d) + if ledger[|ledger| - 1].direction == d then 1 else 0
  }

  ghost predicate InLedger(ledger: seq<Passage>, id: nat) {
    exists i :: 0 <= i < |ledger| && ledger[i].id == id
  }

  ghost predicate LedgerOk(ledger: seq<Passage>, total: nat) {
    && (forall i :: 0 <= i < |ledger| ==> ledger[i].id < total && ledger[i].direction != UnknownDir)
    && (forall i, j :: 0 <= i < j < |ledger| ==> ledger[i].id != ledger[j].id)
  }

  // ---------- the state ----------

  ghost predicate PersonOk(p: Person, total: nat, ledger: seq<Passage>, f: int) {
    && p.id < total
    && p.trajectory != [] && Sorted(p.trajectory) && LastKey(p) <= f
    && p.status == Unknown
    && (p.counted == NotYet || p.counted == Mark(p.direction))
    && (p.counted != NotYet <==> InLedger(ledger, p.id))
  }

  ghost predicate Core(st: State, start: int, f: int) {
    && |st.frames| == HISTORY_LENGTH
    && (forall i :: 0 <= i < |st.people| ==> PersonOk(st.people[i], st.total, st.ledger, f))
    && (forall i, j :: 0 <= i < j < |st.people| ==> st.people[i].id < st.people[j].id)
    && LedgerOk(st.ledger, st.total)
    && st.inside == start + Net(st.ledger)
  }

  /** Seen in this round, or short enough not to be trimmed. */
  ghost predicate Awake(p: Person, f: int)
    requires p.trajectory != []
  {
    |p.trajectory| < TRAJECTORY_LENGTH || f - 5 <= LastKey(p)
  }

  /** What holds of a person who stays in the list at the end of frame `f`. */
  ghost predicate Settled(p: Person, f: int)
    requires p.trajectory != []
  {
    |p.trajectory| < TRAJECTORY_LENGTH && f - LastKey(p) <= 7
  }

  /** The ring holds the last `HISTORY_LENGTH` frames up to frame `f`, and nothing else. */
  ghost predicate Ring(frames: seq<Frame>, f: int) {
    && |frames| == HISTORY_LENGTH
    && (forall n :: 1 <= n <= f && f - HISTORY_LENGTH < n ==> frames[Slot(n)].number == n)
    && (f < HISTORY_LENGTH ==> forall k :: 0 <= k < HISTORY_LENGTH && (k == 0 || f < k) ==> frames[k] == EmptyFrame)
  }

  /** The state between frames. */
  ghost predicate Invariant(st: State, start: int, f: int) {
    && Core(st, start, f)
    && Ring(st.frames, f)
    && |st.people| <= 4
    && (forall i :: 0 <= i < |st.people| ==> Settled(st.people[i], f))
  }

  // ---------- matching keeps the core ----------

  function Key(a: Action): int {
    a.key
  }

  ghost predicate AllAwake(people: seq<Person>, f: int) {
    forall i :: 0 <= i < |people| ==> people[i].trajectory != [] && Awake(people[i], f)
  }

  lemma ExtendKeepsPerson(p: Person, key: int, body: Body, total: nat, ledger: seq<Passage>, f: int)
    requires PersonOk(p, total, ledger, f) && f - 5 <= key <= f
    ensures var q := p.(trajectory := Put(p.trajectory, key, body));
            PersonOk(q, total, ledger, f) && Awake(q, f)
  {
    PutIsMapUpdate(p.trajectory, key, body);
    PutEnds(p.trajectory, key, body);
  }

  lemma AdmitKeepsCore(st: State, key: int, body: Body, start: int, f: int)
    requires Core(st, start, f) && AllAwake(st.people, f)
    requires f - 5 <= key <= f
    ensures var r := AdmitPerson(st, key, body);
            Core(r, start, f) && AllAwake(r.people, f) && |r.people| <= |st.people| + 1
  {
    var r := AdmitPerson(st, key, body);
    if r != st {
      forall i | 0 <= i < |r.people|
        ensures PersonOk(r.people[i], r.total, r.ledger, f) && Awake(r.people[i], f)
      {
        if i < |st.people| {
          assert r.people[i] == st.people[i];
        } else {
          assert r.people[i].id == st.total;
        }
      }
    }
  }

  lemma ActKeepsCore(st: State, a: Action, start: int, f: int)
    requires Core(st, start, f) && AllAwake(st.people, f)
    requires f - 5 <= Key(a) <= f
    ensures var r := Act(st, a);
            Core(r, start, f) && AllAwake(r.people, f) && |r.people| <= |st.people| + 1
  {
    match a
    case Extend(who, key, body) =>
      if who < |st.people| {
        ExtendKeepsPerson(st.people[who], key, body, st.total, st.ledger, f);
      }
    case Admit(key, body) =>
      AdmitKeepsCore(st, key, body, start, f);
  }

  lemma {:induction false} PerformKeepsCore(st: State, actions: seq<Action>, start: int, f: int)
    requires Core(st, start, f) && AllAwake(st.people, f)
    requires forall a :: a in actions ==> f - 5 <= Key(a) <= f
    ensures var r := Perform(st, actions);
            Core(r, start, f) && AllAwake(r.people, f) && |r.people| <= |st.people| + |actions|
    decreases |actions|
  {
    if actions != [] {
      ActKeepsCore(st, actions[0], start, f);
      PerformKeepsCore(Act(st, actions[0]), actions[1..], start, f);
    }
  }

  // ---------- the ring ----------

  lemma SlotsDiffer(m: int, n: int)
    requires m < n < m + HISTORY_LENGTH
    ensures Slot(m) != Slot(n)
  {
  }

  lemma StoreKeepsRing(st: State, f: nat, o: Observation)
    requires Ring(st.frames, f - 1) && 1 <= f
    ensures Ring(Store(st, f, o).frames, f)
  {
    var frames := Store(st, f, o).frames;
    forall n | 1 <= n <= f && f - HISTORY_LENGTH < n ensures frames[Slot(n)].number == n {
      if n < f { SlotsDiffer(n, f); }
    }
  }

  /** A frame that passes correction is the frame processed five rounds ago. */
  lemma UsableFrameIsFiveBack(frames: seq<Frame>, f: nat)
    requires Ring(frames, f) && 1 <= f
    ensures var frame := frames[Slot(f - 5)];
            CorrectFrame(frames, frame).1 ==> frame.number == f - 5 && frame.valid
    ensures Ring(CorrectFrame(frames, frames[Slot(f - 5)]).0, f)
  {
    var frame := frames[Slot(f - 5)];
    if f <= 5 {
      assert frame == EmptyFrame;
    }
  }

  // ---------- a whole match ----------

  lemma DirectionsKeepCore(st: State, start: int, f: int)
    requires Core(st, start, f) && AllAwake(st.people, f)
    ensures var r := st.(people := UpdateDirections(st.people)); Core(r, start, f) && AllAwake(r.people, f)
  {
    var people := UpdateDirections(st.people);
    forall i | 0 <= i < |people|
      ensures PersonOk(people[i], st.total, st.ledger, f) && Awake(people[i], f) && people[i].id == st.people[i].id
    {
      assert people[i] == UpdateDirection(st.people[i]);
      assert PersonOk(st.people[i], st.total, st.ledger, f);
    }
  }

  lemma TwoBodiesActions(people: seq<Person>, b1: Body, b2: Body, f: nat)
    requires Tracked(people) && |people| <= 4
    ensures |people| + |TwoBodies(people, b1, b2, f)| <= 4
    ensures forall a :: a in TwoBodies(people, b1, b2, f) ==> Key(a) == f
  {
  }

  lemma TwoBodiesKeepCore(st: State, b1: Body, b2: Body, g: int, start: int, f: nat)
    requires Core(st, start, f) && AllAwake(st.people, f) && |st.people| <= 4 && g == f - 5
    ensures var admits := [Admit(g, b1), Admit(g, b2)];
            var st1 := if st.people == [] then Perform(st, admits) else st;
            && Core(st1, start, f) && AllAwake(st1.people, f) && Tracked(st1.people)
            && var r := Perform(st1, TwoBodies(st1.people, b1, b2, f));
               Core(r, start, f) && AllAwake(r.people, f) && |r.people| <= 4
  {
    hide Perform, TwoBodies, PersonOk, LedgerOk, Net, Awake;
    var admits := [Admit(g, b1), Admit(g, b2)];
    var st1 := if st.people == [] then Perform(st, admits) else st;
    PerformKeepsCore(st, admits, start, f);
    TwoBodiesActions(st1.people, b1, b2, f);
    PerformKeepsCore(st1, TwoBodies(st1.people, b1, b2, f), start, f);
  }

  lemma MatchFrameKeepsCore(st: State, frame: Frame, start: int, f: nat)
    requires Core(st, start, f) && AllAwake(st.people, f) && |st.people| <= 4
    requires frame.number == f - 5
    ensures var r := MatchFrame(st, frame, f);
            Core(r, start, f) && AllAwake(r.people, f) && |r.people| <= 4
  {
    if |frame.bodies| == 1 {
      PerformKeepsCore(st, OneBody(st.people, frame.bodies[0], frame.number, f), start, f);
    } else if |frame.bodies| == 2 {
      TwoBodiesKeepCore(st, frame.bodies[0], frame.bodies[1], frame.number, start, f);
    }
  }

  lemma MatchKeepsCore(st: State, start: int, f: nat)
    requires Core(st, start, f) && AllAwake(st.people, f) && |st.people| <= 4
    requires Ring(st.frames, f) && 1 <= f
    ensures var r := MatchBodyPerson(st, f);
            Core(r, start, f) && AllAwake(r.people, f) && |r.people| <= 4 && Ring(r.frames, f)
  {
    UsableFrameIsFiveBack(st.frames, f);
    var frame := st.frames[Slot(f - 5)];
    var (frames, usable) := CorrectFrame(st.frames, frame);
    var st1 := st.(frames := frames);
    if usable && |frame.bodies| != 0 {
      MatchFrameKeepsCore(st1, frame, start, f);
      DirectionsKeepCore(MatchFrame(st1, frame, f), start, f);
    }
  }

  // ---------- counting and retirement ----------

  ghost predicate AllSettled(people: seq<Person>, from: nat, f: int) {
    forall i :: from <= i < |people| ==> people[i].trajectory != [] && Settled(people[i], f)
  }

  lemma NetOfAppend(ledger: seq<Passage>, p: Passage)
    ensures Net(ledger + [p]) == Net(ledger) + Delta(p.direction)
    ensures forall id :: InLedger(ledger + [p], id) <==> InLedger(ledger, id) || id == p.id
  {
    var r := ledger + [p];
    assert r[..|r| - 1] == ledger;
    forall id ensures InLedger(r, id) <==> InLedger(ledger, id) || id == p.id {
      if InLedger(ledger, id) {
        var i :| 0 <= i < |ledger| && ledger[i].id == id;
        assert r[i].id == id;
      }
      assert r[|ledger|] == p;
    }
  }

  lemma CheckKeepsCore(st: State, i: nat, start: int, f: int)
    requires Core(st, start, f) && i < |st.people|
    ensures var r := CheckTrajectory(st, i);
            && Core(r, start, f)
            && r.people[i].trajectory == st.people[i].trajectory
            && (forall j :: 0 <= j < |st.people| && j != i ==> r.people[j] == st.people[j])
  {
    var p := st.people[i];
    if Countable(p) {
      var r := CheckTrajectory(st, i);
      NetOfAppend(st.ledger, Passage(p.id, p.direction));
      forall j | 0 <= j < |r.people| ensures PersonOk(r.people[j], r.total, r.ledger, f) {
        assert PersonOk(st.people[j], st.total, st.ledger, f);
      }
      assert LedgerOk(r.ledger, r.total);
    }
  }

  lemma RemoveKeepsCore(st: State, i: nat, start: int, f: int)
    requires Core(st, start, f) && i < |st.people|
    ensures Core(st.(people := Without(st.people, i)), start, f)
  {
  }

  /** A counted or expired person is taken out. */
  lemma RetireKeepsCore(st: State, i: nat, start: int, f: nat)
    requires Core(st, start, f) && i < |st.people| && AllAwake(st.people[..i + 1], f) && AllSettled(st.people, i + 1, f)
    ensures var st1 := CheckTrajectory(st, i);
            var r := st1.(people := Without(st1.people, i));
            Core(r, start, f) && AllAwake(r.people[..i], f) && AllSettled(r.people, i, f)
  {
    var st1 := CheckTrajectory(st, i);
    CheckKeepsCore(st, i, start, f);
    RemoveKeepsCore(st1, i, start, f);
    assert st1.people[..i] == st.people[..i + 1][..i];
    forall j | i <= j < |st.people| - 1 ensures Without(st1.people, i)[j] == st.people[j + 1] {
    }
  }

  /** A trajectory that has grown too long is cut down to its last entry. */
  lemma TrimKeepsCore(st: State, i: nat, start: int, f: nat)
    requires Core(st, start, f) && i < |st.people| && AllAwake(st.people[..i + 1], f) && AllSettled(st.people, i + 1, f)
    requires |st.people[i].trajectory| >= TRAJECTORY_LENGTH
    ensures var r := StatusAt(st, i, f);
            Core(r, start, f) && AllAwake(r.people[..i], f) && AllSettled(r.people, i, f) && |r.people| == |st.people|
  {
    CheckKeepsCore(st, i, start, f);
    assert st.people[..i + 1][i] == st.people[i];
    assert StatusAt(st, i, f).people[..i] == st.people[..i + 1][..i];
  }

  lemma StatusAtKeepsCore(st: State, i: nat, start: int, f: nat)
    requires Core(st, start, f) && i < |st.people| && AllAwake(st.people[..i + 1], f) && AllSettled(st.people, i + 1, f)
    ensures var r := StatusAt(st, i, f);
            Core(r, start, f) && AllAwake(r.people[..i], f) && AllSettled(r.people, i, f) && |r.people| <= |st.people|
  {
    var p := st.people[i];
    if |p.trajectory| >= TRAJECTORY_LENGTH {
      TrimKeepsCore(st, i, start, f);
    } else if f - LastKey(p) - 5 >= DETECTION_DELAY || (|st.people| > 2 && Countable(p)) {
      RetireKeepsCore(st, i, start, f);
    } else {
      assert st.people[..i] == st.people[..i + 1][..i];
    }
  }

  lemma {:induction false} UpdateStatusKeepsCore(st: State, n: nat, start: int, f: nat)
    requires Core(st, start, f) && n <= |st.people| && AllAwake(st.people[..n], f) && AllSettled(st.people, n, f)
    ensures var r := UpdateStatus(st, n, f);
            Core(r, start, f) && AllSettled(r.people, 0, f) && |r.people| <= |st.people|
    decreases n
  {
    if n > 0 {
      StatusAtKeepsCore(st, n - 1, start, f);
      UpdateStatusKeepsCore(StatusAt(st, n - 1, f), n - 1, start, f);
    }
  }

  // ---------- every run ----------

  lemma InitialIsInvariant(start: int)
    ensures Invariant(Initial(start), start, 0)
  {
  }

  lemma StepKeepsInvariant(st: State, start: int, f: nat, o: Observation)
    requires Invariant(st, start, f - 1) && 1 <= f
    ensures Invariant(Step(st, f, o), start, f)
  {
    var st1 := Store(st, f, o);
    StoreKeepsRing(st, f, o);
    forall i | 0 <= i < |st.people| ensures PersonOk(st.people[i], st.total, st.ledger, f) {
      assert PersonOk(st.people[i], st.total, st.ledger, f - 1);
    }
    MatchKeepsCore(st1, start, f);
    var st2 := MatchBodyPerson(st1, f);
    assert st2.people[..|st2.people|] == st2.people;
    UpdateStatusKeepsCore(st2, |st2.people|, start, f);
  }

  lemma {:induction false} RunKeepsInvariant(st: State, start: int, f: nat, os: seq<Observation>)
    requires Invariant(st, start, f)
    ensures Invariant(Run(st, f, os), start, f + |os|)
    decreases |os|
  {
    hide Step, Initial;
    if os != [] {
      RunUnfolds(st, f, os);
      StepKeepsInvariant(st, start, f + 1, os[0]);
      RunKeepsInvariant(Step(st, f + 1, os[0]), start, f + 1, os[1..]);
    }
  }

  // ---------- conservation ----------

  lemma {:induction false} NetCountsPassages(ledger: seq<Passage>)
    requires forall i :: 0 <= i < |ledger| ==> ledger[i].direction != UnknownDir
    ensures Net(ledger) == Walked(ledger, RtoL) - Walked(ledger, LtoR)
    ensures |ledger| == Walked(ledger, RtoL) + Walked(ledger, LtoR)
  {
    if ledger != [] {
      NetCountsPassages(ledger[..|ledger| - 1]);
    }
  }

  /** Over every run the count has moved by the persons counted right-to-left minus those counted
      left-to-right, and nobody was counted twice, not even after he left the list. */
  lemma Conservation(start: int, os: seq<Observation>)
    ensures var r := Run(Initial(start), 0, os);
            && r.inside - start == Walked(r.ledger, RtoL) - Walked(r.ledger, LtoR)
            && (forall i, j :: 0 <= i < j < |r.ledger| ==> r.ledger[i].id != r.ledger[j].id)
            && |r.ledger| == Walked(r.ledger, RtoL) + Walked(r.ledger, LtoR)
  {
    hide Step;
    InitialIsInvariant(start);
    RunKeepsInvariant(Initial(start), start, 0, os);
    NetCountsPassages(Run(Initial(start), 0, os).ledger);
  }

  // ---------- directions are written once ----------

  /** `q` is a later state of `p`, or of somebody who came after. */
  ghost predicate Later(p: Person, q: Person) {
    && p.id == q.id
    && (p.direction != UnknownDir ==> q.direction == p.direction)
    && (p.counted != NotYet ==> q.counted == p.counted)
  }

  ghost predicate KnownIn(people: seq<Person>, q: Person) {
    exists i :: 0 <= i < |people| && Later(people[i], q)
  }

  ghost predicate Descends(st: State, r: State) {
    && st.total <= r.total
    && st.ledger <= r.ledger
    && (forall j :: 0 <= j < |r.people| ==> st.total <= r.people[j].id || KnownIn(st.people, r.people[j]))
  }

  lemma DescendsTransitive(a: State, b: State, c: State)
    requires Descends(a, b) && Descends(b, c)
    ensures Descends(a, c)
  {
    forall j | 0 <= j < |c.people| && c.people[j].id < a.total ensures KnownIn(a.people, c.people[j]) {
      var i :| 0 <= i < |b.people| && Later(b.people[i], c.people[j]);
      var k :| 0 <= k < |a.people| && Later(a.people[k], b.people[i]);
      assert Later(a.people[k], c.people[j]);
    }
  }

  lemma SamePlaceDescends(st: State, r: State)
    requires st.total == r.total && st.ledger <= r.ledger && |st.people| == |r.people|
    requires forall i :: 0 <= i < |st.people| ==> Later(st.people[i], r.people[i])
    ensures Descends(st, r)
  {
  }

  lemma ActDescends(st: State, a: Action)
    requires |st.frames| == HISTORY_LENGTH
    ensures Descends(st, Act(st, a))
  {
    var r := Act(st, a);
    forall j | 0 <= j < |r.people| && r.people[j].id < st.total ensures KnownIn(st.people, r.people[j]) {
      assert Later(st.people[j], r.people[j]);
    }
  }

  lemma {:induction false} PerformDescends(st: State, actions: seq<Action>)
    requires |st.frames| == HISTORY_LENGTH
    ensures Descends(st, Perform(st, actions))
    decreases |actions|
  {
    if actions == [] {
      SamePlaceDescends(st, st);
    } else {
      ActDescends(st, actions[0]);
      PerformDescends(Act(st, actions[0]), actions[1..]);
      DescendsTransitive(st, Act(st, actions[0]), Perform(st, actions));
    }
  }

  lemma MatchFrameDescends(st: State, frame: Frame, f: nat)
    requires |st.frames| == HISTORY_LENGTH && Tracked(st.people)
    ensures Descends(st, MatchFrame(st, frame, f))
  {
    if |frame.bodies| == 1 {
      PerformDescends(st, OneBody(st.people, frame.bodies[0], frame.number, f));
    } else if |frame.bodies| == 2 {
      var b1, b2 := frame.bodies[0], frame.bodies[1];
      var admits := [Admit(frame.number, b1), Admit(frame.number, b2)];
      var st1 := if st.people == [] then Perform(st, admits) else st;
      AdmittingKeepsTracked(st, frame.number, b1, b2);
      PerformDescends(st, admits);
      SamePlaceDescends(st, st);
      PerformDescends(st1, TwoBodies(st1.people, b1, b2, f));
      DescendsTransitive(st, st1, MatchFrame(st, frame, f));
    } else {
      SamePlaceDescends(st, st);
    }
  }

  lemma MatchDescends(st: State, f: nat)
    requires |st.frames| == HISTORY_LENGTH && Tracked(st.people)
    ensures Descends(st, MatchBodyPerson(st, f))
  {
    var frame := st.frames[Slot(f - 5)];
    var (frames, usable) := CorrectFrame(st.frames, frame);
    var st1 := st.(frames := frames);
    SamePlaceDescends(st, st1);
    if usable && |frame.bodies| != 0 {
      var st2 := MatchFrame(st1, frame, f);
      var st3 := st2.(people := UpdateDirections(st2.people));
      MatchFrameDescends(st1, frame, f);
      SamePlaceDescends(st2, st3);
      DescendsTransitive(st1, st2, st3);
    }
  }

  lemma RemoveDescends(st: State, i: nat)
    requires i < |st.people|
    ensures Descends(st, st.(people := Without(st.people, i)))
  {
    var people := Without(st.people, i);
    forall j | 0 <= j < |people| ensures KnownIn(st.people, people[j]) {
      assert Later(st.people[if j < i then j else j + 1], people[j]);
    }
  }

  lemma StatusAtDescends(st: State, i: nat, start: int, f: nat)
    requires Core(st, start, f) && i < |st.people|
    ensures Descends(st, StatusAt(st, i, f))
  {
    var st1 := CheckTrajectory(st, i);
    CheckKeepsCore(st, i, start, f);
    SamePlaceDescends(st, st1);
    RemoveDescends(st1, i);
    DescendsTransitive(st, st1, st1.(people := Without(st1.people, i)));
    if |st.people[i].trajectory| >= TRAJECTORY_LENGTH {
      SamePlaceDescends(st, StatusAt(st, i, f));
    } else {
      SamePlaceDescends(st, st);
    }
  }

  lemma {:induction false} UpdateStatusDescends(st: State, n: nat, start: int, f: nat)
    requires Core(st, start, f) && n <= |st.people| && AllAwake(st.people[..n], f) && AllSettled(st.people, n, f)
    ensures Descends(st, UpdateStatus(st, n, f))
    decreases n
  {
    if n == 0 {
      SamePlaceDescends(st, st);
    } else {
      hide Core, StatusAt, Descends, AllSettled;
      var st1 := StatusAt(st, n - 1, f);
      StatusAtKeepsCore(st, n - 1, start, f);
      StatusAtDescends(st, n - 1, start, f);
      UpdateStatusDescends(st1, n - 1, start, f);
      DescendsTransitive(st, st1, UpdateStatus(st, n, f));
    }
  }

  /** No step rewrites a known direction or an earlier count, re-uses an identifier or drops a passage. */
  lemma StepDescends(st: State, start: int, f: nat, o: Observation)
    requires Invariant(st, start, f - 1) && 1 <= f
    ensures Descends(st, Step(st, f, o))
  {
    var st1 := Store(st, f, o);
    SamePlaceDescends(st, st1);
    StoreKeepsRing(st, f, o);
    forall i | 0 <= i < |st.people| ensures PersonOk(st.people[i], st.total, st.ledger, f) {
      assert PersonOk(st.people[i], st.total, st.ledger, f - 1);
    }
    MatchKeepsCore(st1, start, f);
    MatchDescends(st1, f);
    var st2 := MatchBodyPerson(st1, f);
    assert st2.people[..|st2.people|] == st2.people;
    UpdateStatusDescends(st2, |st2.people|, start, f);
    DescendsTransitive(st, st1, st2);
    DescendsTransitive(st, st2, Step(st, f, o));
  }

  lemma {:induction false} RunDescends(st: State, start: int, f: nat, os: seq<Observation>)
    requires Invariant(st, start, f)
    ensures Descends(st, Run(st, f, os))
    decreases |os|
  {
    hide Step;
    if os == [] {
      SamePlaceDescends(st, st);
    } else {
      StepKeepsInvariant(st, start, f + 1, os[0]);
      StepDescends(st, start, f + 1, os[0]);
      RunDescends(Step(st, f + 1, os[0]), start, f + 1, os[1..]);
      DescendsTransitive(st, Step(st, f + 1, os[0]), Run(st, f, os));
    }
  }
}
