/** What the tracker counts: a person who crosses the scene alone moves the count by exactly one, in the
    right direction; lingering on one side or a one-frame blip moves nothing. */
module TrackerWalks {
  import opened Tracker
  import opened TrackerSafety
  import opened TrackerScripts

  /** A visit: `n` frames with one body each, then eight empty ones, seen after frame `f0` when the count
      was `inside`.  The body is first seen at side `from`; from the `m`-th frame on it is at the other side. */
  datatype Visit = Visit(f0: nat, inside: int, os: seq<Observation>, n: nat, m: nat, from: Side)

  function Opposite(s: Side): Side {
    match s
    case LeftSide => RightSide
    case RightSide => LeftSide
    case UnknownSide => UnknownSide
  }

  function Heading(from: Side): Direction {
    match from
    case LeftSide => LtoR
    case RightSide => RtoL
    case UnknownSide => UnknownDir
  }

  ghost predicate OneByOne(v: Visit) {
    && 1 <= v.n && |v.os| == v.n + 8
    && (forall k :: 0 <= k < v.n ==> |v.os[k].bodies| == 1)
    && (forall k :: v.n <= k < v.n + 8 ==> v.os[k].bodies == [])
  }

  function SideAt(v: Visit, k: nat): Side
    requires k < |v.os| && |v.os[k].bodies| == 1
  {
    v.os[k].bodies[0].side
  }

  /** A one-frame blip at any side, or a visit that starts at a known side.  Before the crossing the side
      may be unknown in later frames, unless the visit is so long that the trajectory is cut down. */
  ghost predicate Crossing(v: Visit) {
    && OneByOne(v)
    && 1 <= v.m <= v.n
    && (v.n > 1 ==>
          && v.from != UnknownSide && SideAt(v, 0) == v.from
          && (forall k :: 0 <= k < v.m ==>
                SideAt(v, k) == v.from || (SideAt(v, k) == UnknownSide && v.n < TRAJECTORY_LENGTH))
          && (forall k :: v.m <= k < v.n ==> SideAt(v, k) == Opposite(v.from)))
  }

  /** One more inside for a crossing from right to left, one less from left to right. */
  function Outcome(v: Visit): int {
    if v.m >= v.n then 0 else if v.from == RightSide then 1 else -1
  }

  /** Nobody is tracked and the frames still to be matched are empty. */
  ghost predicate Quiet(st: State, f: nat) {
    && st.people == []
    && Ring(st.frames, f)
    && (forall g :: 1 <= g && f - 4 <= g <= f ==> Seen(st.frames, g, []) && Valid(st.frames, g))
  }

  /** The visit as a script: a visit of one frame is a blip. */
  function ScriptOf(v: Visit): Script {
    Script(v.f0, v.os, if v.n == 1 then v.f0 + 1 else 0)
  }

  lemma CountOf(v: Visit, g: int)
    requires OneByOne(v) && g <= v.f0 + |v.os|
    ensures |BodiesOf(ScriptOf(v), g)| == if v.f0 < g <= v.f0 + v.n then 1 else 0
  {
  }

  lemma VisitIsSmooth(v: Visit)
    requires OneByOne(v)
    ensures Smooth(ScriptOf(v))
  {
    hide BodiesOf;
    var s := ScriptOf(v);
    forall g | s.f0 - 4 <= g < s.f0 + |s.os| ensures Regular(s, g) {
      CountOf(v, g - 1);
      CountOf(v, g);
      CountOf(v, g + 1);
    }
  }

  // ---------- the one person in the scene ----------

  /** The person after the `q`-th frame of the visit was matched. */
  ghost predicate OnPath(v: Visit, p: Person, q: nat)
    requires Crossing(v) && q < v.n
  {
    && p.trajectory != [] && Sorted(p.trajectory) && |p.trajectory| <= q + 1
    && LastKey(p) == v.f0 + 1 + q && Last(p).side == SideAt(v, q)
    && p.status == Unknown
    && (q < v.m ==> p.direction == UnknownDir && First(p).side == v.from && p.counted == NotYet)
    && (v.m <= q ==> p.direction == Heading(v.from) && (p.counted == NotYet || p.counted == Mark(p.direction)))
  }

  ghost predicate Walking(v: Visit, st: State, q: nat)
    requires Crossing(v) && q < v.n
  {
    && |st.people| == 1
    && var p := st.people[0];
    && OnPath(v, p, q)
    && st.inside == v.inside + if p.counted == NotYet then 0 else Delta(p.direction)
  }

  function Seen6(v: Visit, k: nat): nat
    requires 6 <= k && 1 <= v.n
  {
    if k - 6 < v.n then k - 6 else v.n - 1
  }

  /** Where the visit stands once its `k`-th observation is processed: matching lags five frames behind. */
  ghost predicate Phase(v: Visit, st: State, k: nat)
    requires Crossing(v)
  {
    if k < 6 || v.n == 1 then st.people == [] && st.inside == v.inside
    else if k < v.n + 8 then Walking(v, st, Seen6(v, k)) && |st.people[0].trajectory| < TRAJECTORY_LENGTH
    else st.people == [] && st.inside == v.inside + Outcome(v)
  }

  lemma FirstBodyStartsTheWalk(v: Visit, st: State, frame: Frame, f: nat)
    requires Crossing(v) && v.n > 1 && |st.frames| == HISTORY_LENGTH && st.people == [] && st.inside == v.inside
    requires frame.bodies == v.os[0].bodies && frame.number == v.f0 + 1
    ensures var r := MatchFrame(st, frame, f);
            Walking(v, r.(people := UpdateDirections(r.people)), 0)
  {
    var a := Admit(frame.number, frame.bodies[0]);
    assert OneBody(st.people, frame.bodies[0], frame.number, f) == [a];
    assert Perform(st, [a]) == Perform(Act(st, a), []);
    assert SideAt(v, 0) == v.from;
  }

  lemma PutKeepsSorted(t: Trajectory, key: int, body: Body)
    requires Sorted(t)
    ensures Sorted(Put(t, key, body))
  {
    PutIsMapUpdate(t, key, body);
  }

  lemma FirstIsBeforeLast(t: Trajectory)
    requires Sorted(t) && t != []
    ensures t[0].0 <= t[|t| - 1].0
  {
  }

  lemma PersonStaysOnPath(v: Visit, p: Person, b: Body, q: nat)
    requires Crossing(v) && q + 1 < v.n && OnPath(v, p, q) && b.side == SideAt(v, q + 1)
    ensures IsMatch(p, b)
    ensures OnPath(v, UpdateDirection(p.(trajectory := Put(p.trajectory, v.f0 + 2 + q, b))), q + 1)
  {
    hide Put;
    PutKeepsSorted(p.trajectory, v.f0 + 2 + q, b);
    PutEnds(p.trajectory, v.f0 + 2 + q, b);
    FirstIsBeforeLast(p.trajectory);
    hide Sorted;
    assert q + 1 < v.m ==> b.side == v.from || b.side == UnknownSide;
    assert v.m <= q + 1 ==> b.side == Opposite(v.from);
  }

  lemma NextBodyContinuesTheWalk(v: Visit, st: State, frame: Frame, f: nat, q: nat)
    requires Crossing(v) && |st.frames| == HISTORY_LENGTH && q + 1 < v.n && Walking(v, st, q)
    requires frame.bodies == v.os[q + 1].bodies && frame.number == v.f0 + 2 + q
    ensures Tracked(st.people)
    ensures var r := MatchFrame(st, frame, f);
            Walking(v, r.(people := UpdateDirections(r.people)), q + 1)
  {
    var a := Extend(0, frame.number, frame.bodies[0]);
    PersonStaysOnPath(v, st.people[0], frame.bodies[0], q);
    assert OneBody(st.people, frame.bodies[0], frame.number, f) == [a];
    assert Perform(st, [a]) == Perform(Act(st, a), []);
  }

  /** The status update retires the walker, and counts him if he crossed, eight frames after the last body. */
  lemma StatusOfTheWalk(v: Visit, st: State, k: nat)
    requires Crossing(v) && v.n > 1 && 6 <= k <= v.n + 8 && Tracked(st.people)
    requires Walking(v, st, Seen6(v, k))
    requires k - 6 < v.n || |st.people[0].trajectory| < TRAJECTORY_LENGTH
    ensures Phase(v, UpdateStatus(st, |st.people|, v.f0 + k), k)
  {
    var f := v.f0 + k;
    var q := Seen6(v, k);
    var r := StatusAt(st, 0, f);
    assert UpdateStatus(st, 1, f) == UpdateStatus(r, 0, f) == r;
    if |st.people[0].trajectory| >= TRAJECTORY_LENGTH {
      assert q < v.m ==> SideAt(v, q) == v.from;
    }
  }

  // ---------- the visit ----------

  lemma MatchDuringVisit(v: Visit, st: State, k: nat)
    requires Crossing(v) && 1 <= k <= v.n + 8 && Tracked(st.people)
    requires |st.frames| == HISTORY_LENGTH && Window(ScriptOf(v), st.frames, v.f0 + k) && Phase(v, st, k - 1)
    ensures var r := MatchBodyPerson(st, v.f0 + k);
            && Window(ScriptOf(v), r.frames, v.f0 + k)
            && if k < 6 || v.n == 1 then r.people == [] && r.inside == v.inside
               else Walking(v, r, Seen6(v, k))
                    && (k - 6 < v.n || |r.people[0].trajectory| < TRAJECTORY_LENGTH)
  {
    hide MatchFrame, CorrectFrame, Window;
    var t := v.f0 + k;
    VisitIsSmooth(v);
    CorrectionKeepsWindow(ScriptOf(v), st.frames, t);
    var frame := st.frames[Slot(t - 5)];
    var (frames, usable) := CorrectFrame(st.frames, frame);
    var st1 := st.(frames := frames);
    if k < 6 {
      assert usable ==> BodiesOf(ScriptOf(v), t - 5) == [];
    } else if k - 6 < v.n {
      assert BodiesOf(ScriptOf(v), t - 5) == v.os[k - 6].bodies;
      if v.n > 1 {
        if k == 6 {
          FirstBodyStartsTheWalk(v, st1, frame, t);
        } else {
          NextBodyContinuesTheWalk(v, st1, frame, t, k - 7);
        }
      }
    } else {
      assert usable ==> BodiesOf(ScriptOf(v), t - 5) == v.os[k - 6].bodies == [];
    }
  }

  lemma NobodyToRetire(st: State, f: nat)
    requires st.people == []
    ensures UpdateStatus(st, 0, f) == st
  {
  }

  lemma VisitStep(v: Visit, st: State, k: nat)
    requires Crossing(v) && 1 <= k <= v.n + 8 && Tracked(st.people)
    requires |st.frames| == HISTORY_LENGTH && Window(ScriptOf(v), st.frames, v.f0 + k - 1) && Phase(v, st, k - 1)
    ensures var r := Step(st, v.f0 + k, v.os[k - 1]);
            Window(ScriptOf(v), r.frames, v.f0 + k) && Phase(v, r, k)
  {
    hide MatchBodyPerson, UpdateStatus, Window, OnPath, Tracked;
    var st1 := Store(st, v.f0 + k, v.os[k - 1]);
    StoreKeepsWindow(ScriptOf(v), st, k);
    MatchDuringVisit(v, st1, k);
    MatchKeepsTracked(st1, v.f0 + k);
    if k < 6 || v.n == 1 {
      NobodyToRetire(MatchBodyPerson(st1, v.f0 + k), v.f0 + k);
    } else {
      StatusOfTheWalk(v, MatchBodyPerson(st1, v.f0 + k), k);
    }
  }

  lemma {:induction false} VisitRun(v: Visit, st: State, k: nat)
    requires Crossing(v) && k <= v.n + 8 && Tracked(st.people)
    requires |st.frames| == HISTORY_LENGTH && Window(ScriptOf(v), st.frames, v.f0 + k) && Phase(v, st, k)
    ensures var r := Run(st, v.f0 + k, v.os[k..]);
            Window(ScriptOf(v), r.frames, v.f0 + |v.os|) && Phase(v, r, |v.os|)
    decreases v.n + 8 - k
  {
    hide Step;
    if k < v.n + 8 {
      VisitStep(v, st, k + 1);
      assert v.os[k..][0] == v.os[k] && v.os[k..][1..] == v.os[k + 1..];
      VisitRun(v, Step(st, v.f0 + k + 1, v.os[k]), k + 1);
    }
  }

  /** One walker: he moves the count by exactly one in the direction he went if he crossed, and not at
      all if he stayed on one side or was seen in one frame only.  The scene is quiet again afterwards. */
  lemma SingleWalker(st: State, f: nat, v: Visit)
    requires Quiet(st, f) && v.f0 == f && v.inside == st.inside && Crossing(v)
    ensures var r := Run(st, f, v.os);
            Quiet(r, f + |v.os|) && r.inside == st.inside + Outcome(v)
  {
    hide Step;
    assert Window(ScriptOf(v), st.frames, f);
    assert v.os[0..] == v.os;
    VisitRun(v, st, 0);
    var r := Run(st, f, v.os);
    forall g | 1 <= g && f + |v.os| - 4 <= g <= f + |v.os| ensures Seen(r.frames, g, []) && Valid(r.frames, g) {
      assert BodiesOf(ScriptOf(v), g) == v.os[g - f - 1].bodies == [];
    }
  }

  // ---------- any number of walkers, one after the other ----------

  lemma InitialIsQuiet(inside: int)
    ensures Quiet(Initial(inside), 0)
  {
  }

  lemma IdleStore(st: State, f: nat, o: Observation)
    requires Quiet(st, f) && o.bodies == []
    ensures Quiet(Store(st, f + 1, o), f + 1)
  {
    var frames := Store(st, f + 1, o).frames;
    StoreKeepsRing(st, f + 1, o);
    forall g | 1 <= g && f - 3 <= g <= f + 1 ensures Seen(frames, g, []) && Valid(frames, g) {
      if g <= f {
        SlotsDiffer(g, f + 1);
        assert Seen(st.frames, g, []);
      }
    }
  }

  lemma OldestQuietFrame(st: State, f: nat, o: Observation)
    requires Quiet(st, f)
    ensures var frames := Store(st, f + 1, o).frames;
            if 1 <= f - 4 then Seen(frames, f - 4, []) && Valid(frames, f - 4)
            else frames[Slot(f - 4)] == EmptyFrame
  {
    if 1 <= f - 4 {
      SlotsDiffer(f - 4, f + 1);
      assert Seen(st.frames, f - 4, []);
    }
  }

  lemma EmptyFramesAreNoGlitch(frames: seq<Frame>, g: int)
    requires |frames| == HISTORY_LENGTH && Seen(frames, g, []) && Seen(frames, g + 1, [])
    ensures !Glitch(frames, Slot(g))
  {
    SlotShift(g, 1);
  }

  lemma IdleMatch(st: State, f: nat, o: Observation)
    requires Quiet(st, f + 1)
    requires if 1 <= f - 4 then Seen(st.frames, f - 4, []) && Valid(st.frames, f - 4) else st.frames[Slot(f - 4)] == EmptyFrame
    ensures Tracked(st.people) && MatchBodyPerson(st, f + 1) == st
  {
    hide Glitch;
    if 1 <= f - 4 {
      assert Seen(st.frames, f - 3, []);
      EmptyFramesAreNoGlitch(st.frames, f - 4);
    }
  }

  lemma IdleStep(st: State, f: nat, o: Observation)
    requires Quiet(st, f) && o.bodies == []
    ensures var r := Step(st, f + 1, o); Quiet(r, f + 1) && r.inside == st.inside
  {
    hide Glitch, Seen;
    var st1 := Store(st, f + 1, o);
    IdleStore(st, f, o);
    OldestQuietFrame(st, f, o);
    IdleMatch(st1, f, o);
  }

  lemma {:induction false} RunConcat(st: State, f: nat, a: seq<Observation>, b: seq<Observation>)
    requires |st.frames| == HISTORY_LENGTH && Tracked(st.people)
    ensures Run(st, f, a + b) == Run(Run(st, f, a), f + |a|, b)
    decreases |a|
  {
    hide Step;
    if a == [] {
      assert a + b == b;
    } else {
      assert (a + b)[0] == a[0] && (a + b)[1..] == a[1..] + b;
      RunConcat(Step(st, f + 1, a[0]), f + 1, a[1..], b);
    }
  }

  /** An empty frame, or a visit of one person. */
  datatype Episode = Idle(o: Observation) | Walk(os: seq<Observation>, n: nat, m: nat, from: Side)

  ghost predicate Plausible(e: Episode) {
    match e
    case Idle(o) => o.bodies == []
    case Walk(os, n, m, from) => Crossing(Visit(0, 0, os, n, m, from))
  }

  function Frames(es: seq<Episode>): seq<Observation> {
    if es == [] then []
    else (match es[0] case Idle(o) => [o] case Walk(os, _, _, _) => os) + Frames(es[1..])
  }

  function Outcomes(es: seq<Episode>): int {
    if es == [] then 0
    else (match es[0] case Idle(_) => 0 case Walk(os, n, m, from) => Outcome(Visit(0, 0, os, n, m, from)))
         + Outcomes(es[1..])
  }

  lemma EpisodeRun(st: State, f: nat, e: Episode)
    requires Quiet(st, f) && Plausible(e)
    ensures var r := Run(st, f, Frames([e]));
            Quiet(r, f + |Frames([e])|) && r.inside == st.inside + Outcomes([e])
  {
    hide Step;
    match e
    case Idle(o) =>
      IdleStep(st, f, o);
      assert Frames([e]) == [o];
      assert Run(Step(st, f + 1, o), f + 1, []) == Step(st, f + 1, o);
    case Walk(os, n, m, from) =>
      var v := Visit(f, st.inside, os, n, m, from);
      assert forall k :: 0 <= k < n ==> SideAt(v, k) == SideAt(Visit(0, 0, os, n, m, from), k);
      SingleWalker(st, f, v);
      assert Frames([e]) == os;
  }

  /** Walkers who come one after the other are all counted, however many they are. */
  lemma {:induction false} WalkersInTurn(st: State, f: nat, es: seq<Episode>)
    requires Quiet(st, f) && forall e :: e in es ==> Plausible(e)
    ensures var r := Run(st, f, Frames(es));
            Quiet(r, f + |Frames(es)|) && r.inside == st.inside + Outcomes(es)
    decreases |es|
  {
    hide Step, Outcome, Crossing;
    if es != [] {
      var st1 := Run(st, f, Frames([es[0]]));
      EpisodeRun(st, f, es[0]);
      assert Frames(es) == Frames([es[0]]) + Frames(es[1..]);
      WalkersInTurn(st1, f + |Frames([es[0]])|, es[1..]);
      RunConcat(st, f, Frames([es[0]]), Frames(es[1..]));
    }
  }

  // ---------- two persons who appear together ----------

  /** Two bodies that turn up in the same frame are admitted and then matched once more in the same
      round, in the order of their `cx`.  They get directions at once, before anyone has moved, exactly
      if the first body lies further along and the two are on different sides. */
  lemma NewcomersTogether(st: State, frame: Frame, f: nat)
    requires |st.frames| == HISTORY_LENGTH && st.people == [] && frame.number < f && |frame.bodies| == 2
    requires frame.bodies[0].side != UnknownSide && frame.bodies[1].side != UnknownSide
    ensures var b1, b2 := frame.bodies[0], frame.bodies[1];
            var people := UpdateDirections(MatchFrame(st, frame, f).people);
            && |people| == 2
            && (people[0].direction != UnknownDir <==> b2.cx < b1.cx && b1.side != b2.side)
            && (people[1].direction != UnknownDir <==> b2.cx < b1.cx && b1.side != b2.side)
  {
    var b1, b2 := frame.bodies[0], frame.bodies[1];
    AdmittingKeepsTracked(st, frame.number, b1, b2);
    var st1 := AdmitPerson(AdmitPerson(st, frame.number, b1), frame.number, b2);
    var actions := TwoBodies(st1.people, b1, b2, f);
    var st2 := Act(st1, actions[0]);
    assert actions[1..] == [actions[1]];
    assert Perform(st1, actions) == Perform(st2, [actions[1]]) == Perform(Act(st2, actions[1]), []);
    var c1 := if b1.cx <= b2.cx then b1 else b2;
    var c2 := if b1.cx <= b2.cx then b2 else b1;
    assert actions == [Extend(0, f, c1), Extend(1, f, c2)];
    SecondEntry(frame.number, b1, f, c1);
    SecondEntry(frame.number, b2, f, c2);
    var people := Act(st2, actions[1]).people;
    assert people[0].trajectory == [(frame.number, b1), (f, c1)];
    assert people[1].trajectory == [(frame.number, b2), (f, c2)];
  }

  lemma SecondEntry(g: int, b: Body, f: int, c: Body)
    requires g < f
    ensures Put([(g, b)], f, c) == [(g, b), (f, c)]
  {
    assert [(g, b)][1..] == [];
    assert Put([], f, c) == [(f, c)];
  }
}
