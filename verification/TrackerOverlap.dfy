/** Two people at once: one crosses the scene while a second comes in behind him. */
module TrackerOverlap {
  import opened Tracker
  import opened TrackerSafety
  import opened TrackerScripts
  import opened TrackerWalks
  import opened TrackerLaws

  /** `a` frames with one body, at side `from`; then `b` frames with two, one at either side; then thirteen
      empty ones. */
  datatype Meeting = Meeting(f0: nat, inside: int, os: seq<Observation>, a: nat, b: nat, from: Side)

  /** The body, of two, that goes to the person who has been there longer. */
  function Leftmost(bodies: seq<Body>): nat
    requires |bodies| == 2
  {
    if bodies[0].cx <= bodies[1].cx then 0 else 1
  }

  /** The body that has crossed. */
  predicate Across(v: Meeting, bodies: seq<Body>, i: nat) {
    |bodies| == 2 && i < 2 && bodies[i].side == Opposite(v.from) && bodies[1 - i].side == v.from
  }

  ghost predicate Meets(v: Meeting) {
    && 1 <= v.a && 1 <= v.b && |v.os| == v.a + v.b + 13 && v.from != UnknownSide
    && (forall k :: 0 <= k < v.a ==> |v.os[k].bodies| == 1)
    && v.os[0].bodies[0].side == v.from
    && (forall k :: 0 <= k < v.a ==>
          || v.os[k].bodies[0].side == v.from
          || (v.os[k].bodies[0].side == UnknownSide && v.a < TRAJECTORY_LENGTH))
    && (Across(v, v.os[v.a].bodies, 0) || Across(v, v.os[v.a].bodies, 1))
    && (forall k :: v.a < k < v.a + v.b ==> |v.os[k].bodies| == 2 && Across(v, v.os[k].bodies, Leftmost(v.os[k].bodies)))
    && (forall k :: v.a + v.b <= k < |v.os| ==> v.os[k].bodies == [])
  }

  function ScriptFor(v: Meeting): Script {
    Script(v.f0, v.os, 0)
  }

  lemma CountFor(v: Meeting, g: int)
    requires Meets(v) && g <= v.f0 + |v.os|
    ensures |BodiesOf(ScriptFor(v), g)| ==
            if v.f0 < g <= v.f0 + v.a then 1 else if v.f0 + v.a < g <= v.f0 + v.a + v.b then 2 else 0
  {
  }

  /** The glitch filter drops nothing. */
  lemma MeetingIsSmooth(v: Meeting)
    requires Meets(v)
    ensures Smooth(ScriptFor(v))
  {
    hide Meets, BodiesOf;
    var s := ScriptFor(v);
    Sizes(v);
    forall g | s.f0 - 4 <= g < s.f0 + |s.os| ensures Regular(s, g) {
      CountFor(v, g - 1);
      CountFor(v, g);
      CountFor(v, g + 1);
    }
  }

  lemma Sizes(v: Meeting)
    requires Meets(v)
    ensures |v.os| == v.a + v.b + 13 && v.a >= 1 && v.b >= 1 && v.from != UnknownSide
  {
  }

  // ---------- the two persons ----------

  /** The first person after the `q`-th frame was matched, while he is alone. */
  ghost predicate Waiting(v: Meeting, st: State, q: nat) {
    && |st.people| == 1 && st.inside == v.inside
    && var p := st.people[0];
    && p.trajectory != [] && Sorted(p.trajectory) && |p.trajectory| <= q + 1 && LastKey(p) == v.f0 + 1 + q
    && p.status == Unknown && p.direction == UnknownDir && p.counted == NotYet && First(p).side == v.from
    && (|p.trajectory| >= TRAJECTORY_LENGTH ==> Last(p).side == v.from)
  }

  ghost predicate Crosser(v: Meeting, p: Person, f: int) {
    && p.trajectory != [] && Sorted(p.trajectory) && LastKey(p) == f && p.status == Unknown
    && p.direction == Heading(v.from) && (p.counted == NotYet || p.counted == Mark(p.direction))
  }

  ghost predicate Entering(v: Meeting, p: Person, f: int) {
    && p.trajectory != [] && Sorted(p.trajectory) && LastKey(p) == f && p.status == Unknown
    && p.direction == UnknownDir && p.counted == NotYet && First(p).side == v.from && Last(p).side == v.from
  }

  /** Both, last seen when frame `f` was processed. */
  ghost predicate Both(v: Meeting, st: State, f: int) {
    && |st.people| == 2 && Crosser(v, st.people[0], f) && Entering(v, st.people[1], f)
    && st.inside == v.inside + if st.people[0].counted == NotYet then 0 else Delta(Heading(v.from))
  }

  function Least(x: int, y: int): int {
    if x <= y then x else y
  }

  /** Where the meeting stands once the `k`-th observation is processed. */
  ghost predicate Stage(v: Meeting, st: State, k: nat) {
    if k < 6 then st.people == [] && st.inside == v.inside
    else if k < v.a + 6 then Waiting(v, st, k - 6) && |st.people[0].trajectory| < TRAJECTORY_LENGTH
    else if k < v.a + v.b + 13 then
      && Both(v, st, v.f0 + Least(k, v.a + v.b + 5))
      && |st.people[0].trajectory| < TRAJECTORY_LENGTH && |st.people[1].trajectory| < TRAJECTORY_LENGTH
    else st.people == [] && st.inside == v.inside + Delta(Heading(v.from))
  }

  function Directed(st: State): State {
    st.(people := UpdateDirections(st.people))
  }

  lemma OneComes(v: Meeting, st: State, frame: Frame, f: nat)
    requires Meets(v) && |st.frames| == HISTORY_LENGTH && st.people == [] && st.inside == v.inside
    requires frame.bodies == v.os[0].bodies && frame.number == v.f0 + 1
    ensures Waiting(v, Directed(MatchFrame(st, frame, f)), 0)
  {
    OneBodyAtMostOnePerson(st, frame, f);
  }

  lemma OneStays(v: Meeting, st: State, frame: Frame, f: nat, q: nat)
    requires Meets(v) && |st.frames| == HISTORY_LENGTH && q + 1 < v.a && Waiting(v, st, q)
    requires frame.bodies == v.os[q + 1].bodies && frame.number == v.f0 + 2 + q
    ensures Tracked(st.people) && Waiting(v, Directed(MatchFrame(st, frame, f)), q + 1)
  {
    hide MatchFrame, Put;
    var p, b := st.people[0], frame.bodies[0];
    OneBodyAtMostOnePerson(st, frame, f);
    PutKeepsSorted(p.trajectory, v.f0 + 2 + q, b);
    PutEnds(p.trajectory, v.f0 + 2 + q, b);
    FirstIsBeforeLast(p.trajectory);
    assert b.side != Opposite(v.from);
  }

  lemma OneCrosses(v: Meeting, st: State, frame: Frame, f: nat)
    requires Meets(v) && |st.frames| == HISTORY_LENGTH && Waiting(v, st, v.a - 1)
    requires frame.bodies == v.os[v.a].bodies && f == v.f0 + v.a + 6
    ensures Tracked(st.people) && Both(v, Directed(MatchFrame(st, frame, f)), f)
  {
    hide MatchFrame, Put;
    var p := st.people[0];
    var i := if Across(v, frame.bodies, 0) then 0 else 1;
    OneCrossesAnotherEnters(st, frame, f, i);
    PutKeepsSorted(p.trajectory, f, frame.bodies[i]);
    PutEnds(p.trajectory, f, frame.bodies[i]);
  }

  lemma CrosserGoesOn(v: Meeting, p: Person, f: int, b: Body)
    requires Crosser(v, p, f - 1)
    ensures var q := UpdateDirection(p.(trajectory := Put(p.trajectory, f, b)));
            v.from != UnknownSide ==> Crosser(v, q, f) && q.counted == p.counted
  {
    hide Put;
    PutKeepsSorted(p.trajectory, f, b);
    PutEnds(p.trajectory, f, b);
  }

  lemma SecondStays(v: Meeting, p: Person, f: int, b: Body)
    requires Entering(v, p, f - 1) && b.side == v.from
    ensures var q := UpdateDirection(p.(trajectory := Put(p.trajectory, f, b)));
            Entering(v, q, f)
  {
    hide Put;
    PutKeepsSorted(p.trajectory, f, b);
    PutEnds(p.trajectory, f, b);
    FirstIsBeforeLast(p.trajectory);
  }

  lemma BothGoOn(v: Meeting, st: State, frame: Frame, f: nat, k: nat)
    requires Meets(v) && |st.frames| == HISTORY_LENGTH && v.a < k < v.a + v.b && Both(v, st, f - 1)
    requires frame.bodies == v.os[k].bodies
    ensures Tracked(st.people) && Both(v, Directed(MatchFrame(st, frame, f)), f)
  {
    hide MatchFrame, Put, Crosser, Entering, UpdateDirection;
    BothTracked(v, st, f - 1);
    var i := Leftmost(frame.bodies);
    TwoBodiesNotBothDirected(st, frame, f);
    CrosserGoesOn(v, st.people[0], f, frame.bodies[i]);
    SecondStays(v, st.people[1], f, frame.bodies[1 - i]);
  }

  lemma BothTracked(v: Meeting, st: State, f: int)
    requires Both(v, st, f)
    ensures Tracked(st.people) && st.people[1].direction == UnknownDir
  {
  }

  // ---------- retirement ----------

  lemma WaitingStatus(v: Meeting, st: State, q: nat)
    requires Waiting(v, st, q)
    ensures Tracked(st.people)
    ensures var r := UpdateStatus(st, 1, v.f0 + q + 6); Waiting(v, r, q) && |r.people[0].trajectory| < TRAJECTORY_LENGTH
  {
    var f := v.f0 + q + 6;
    var r := StatusAt(st, 0, f);
    assert UpdateStatus(st, 1, f) == UpdateStatus(r, 0, f) == r;
  }

  lemma StatusOfTwo(st: State, f: nat)
    requires |st.people| == 2 && Tracked(st.people)
    ensures var r := StatusAt(st, 1, f);
            Tracked(r.people) && UpdateStatus(st, 2, f) == StatusAt(r, 0, f)
  {
    hide StatusAt;
    var r := StatusAt(st, 1, f);
    StatusKeepsTracked(st, 1, f);
    StatusKeepsTracked(r, 0, f);
    assert UpdateStatus(r, 1, f) == UpdateStatus(StatusAt(r, 0, f), 0, f);
  }

  lemma SecondIsTrimmed(v: Meeting, st: State, key: int, f: nat)
    requires Both(v, st, key) && key <= f <= key + 7
    ensures var r := StatusAt(st, 1, f);
            && Both(v, r, key) && r.people[0] == st.people[0] && |r.people[1].trajectory| < TRAJECTORY_LENGTH
  {
  }

  lemma FirstIsTrimmed(v: Meeting, st: State, key: int, f: nat)
    requires Both(v, st, key) && key <= f <= key + 7 && v.from != UnknownSide
    ensures var r := StatusAt(st, 0, f);
            && Both(v, r, key) && r.people[1] == st.people[1] && |r.people[0].trajectory| < TRAJECTORY_LENGTH
  {
  }

  lemma BothStatus(v: Meeting, st: State, key: int, f: nat)
    requires Both(v, st, key) && key <= f <= key + 7 && v.from != UnknownSide
    ensures Tracked(st.people)
    ensures var r := UpdateStatus(st, 2, f);
            && Both(v, r, key) && |r.people[0].trajectory| < TRAJECTORY_LENGTH && |r.people[1].trajectory| < TRAJECTORY_LENGTH
  {
    hide StatusAt, Both;
    BothTracked(v, st, key);
    assert |st.people| == 2 by { HowMany(v, st, key); }
    var r := StatusAt(st, 1, f);
    StatusOfTwo(st, f);
    SecondIsTrimmed(v, st, key, f);
    FirstIsTrimmed(v, r, key, f);
  }

  lemma HowMany(v: Meeting, st: State, key: int)
    requires Both(v, st, key)
    ensures |st.people| == 2
  {
  }

  /** Eight frames after the last match both are retired, and the one who crossed is counted if he is not yet. */
  lemma BothLeave(v: Meeting, st: State, key: int, f: nat)
    requires Both(v, st, key) && f == key + 8 && v.from != UnknownSide
    requires |st.people[0].trajectory| < TRAJECTORY_LENGTH && |st.people[1].trajectory| < TRAJECTORY_LENGTH
    ensures Tracked(st.people)
    ensures var r := UpdateStatus(st, 2, f); r.people == [] && r.inside == v.inside + Delta(Heading(v.from))
  {
    var r := StatusAt(st, 1, f);
    assert r.people == [st.people[0]];
    assert StatusAt(r, 0, f).people == [];
    StatusOfTwo(st, f);
  }

  // ---------- the meeting ----------

  lemma MatchInMeeting(v: Meeting, st: State, k: nat)
    requires Meets(v) && 1 <= k <= |v.os| && Tracked(st.people)
    requires |st.frames| == HISTORY_LENGTH && Window(ScriptFor(v), st.frames, v.f0 + k) && Stage(v, st, k - 1)
    ensures var r := MatchBodyPerson(st, v.f0 + k);
            && Window(ScriptFor(v), r.frames, v.f0 + k)
            && if k < 6 then r.people == [] && r.inside == v.inside
               else if k < v.a + 6 then Waiting(v, r, k - 6)
               else Both(v, r, v.f0 + Least(k, v.a + v.b + 5))
                    && (k > v.a + v.b + 5 ==> |r.people[0].trajectory| < TRAJECTORY_LENGTH
                                              && |r.people[1].trajectory| < TRAJECTORY_LENGTH)
  {
    hide MatchFrame, CorrectFrame, Window, Waiting, Both, Smooth;
    var t := v.f0 + k;
    MeetingIsSmooth(v);
    CorrectionKeepsWindow(ScriptFor(v), st.frames, t);
    var frame := st.frames[Slot(t - 5)];
    var (frames, usable) := CorrectFrame(st.frames, frame);
    var st1 := st.(frames := frames);
    SeenInMeeting(v, k);
    if 6 <= k {
      assert frame.bodies == v.os[k - 6].bodies && usable && frame.number == v.f0 + k - 5;
      if k == 6 {
        OneComes(v, st1, frame, t);
      } else if k < v.a + 6 {
        SameWaiting(v, st, st1, k - 7);
        OneStays(v, st1, frame, t, k - 7);
      } else if k == v.a + 6 {
        SameWaiting(v, st, st1, v.a - 1);
        OneCrosses(v, st1, frame, t);
      } else if k < v.a + v.b + 6 {
        SameBoth(v, st, st1, t - 1);
        BothGoOn(v, st1, frame, t, k - 6);
      } else {
        SameBoth(v, st, st1, v.f0 + v.a + v.b + 5);
      }
    }
  }

  lemma SeenInMeeting(v: Meeting, k: nat)
    requires Meets(v) && 1 <= k <= |v.os|
    ensures 1 <= v.a && 1 <= v.b && |v.os| == v.a + v.b + 13
    ensures k < 6 ==> BodiesOf(ScriptFor(v), v.f0 + k - 5) == []
    ensures 6 <= k ==> BodiesOf(ScriptFor(v), v.f0 + k - 5) == v.os[k - 6].bodies
    ensures 6 <= k < v.a + 6 ==> |v.os[k - 6].bodies| == 1
    ensures v.a + 6 <= k < v.a + v.b + 6 ==> |v.os[k - 6].bodies| == 2
    ensures v.a + v.b + 6 <= k ==> v.os[k - 6].bodies == []
  {
  }

  lemma SameWaiting(v: Meeting, st: State, r: State, q: nat)
    requires Waiting(v, st, q) && r.people == st.people && r.inside == st.inside
    ensures Waiting(v, r, q)
  {
  }

  lemma SameBoth(v: Meeting, st: State, r: State, f: int)
    requires Both(v, st, f) && r.people == st.people && r.inside == st.inside
    ensures Both(v, r, f)
  {
  }

  lemma MeetingStep(v: Meeting, st: State, k: nat)
    requires Meets(v) && 1 <= k <= |v.os| && Tracked(st.people)
    requires |st.frames| == HISTORY_LENGTH && Window(ScriptFor(v), st.frames, v.f0 + k - 1) && Stage(v, st, k - 1)
    ensures var r := Step(st, v.f0 + k, v.os[k - 1]);
            Window(ScriptFor(v), r.frames, v.f0 + k) && Stage(v, r, k)
  {
    hide MatchBodyPerson, UpdateStatus, Window, Waiting, Both, Tracked, Meets;
    Sizes(v);
    var f := v.f0 + k;
    var st1 := Store(st, f, v.os[k - 1]);
    StoreKeepsWindow(ScriptFor(v), st, k);
    StoreKeepsStage(v, st, st1, k - 1);
    MatchInMeeting(v, st1, k);
    MatchKeepsTracked(st1, f);
    var r := MatchBodyPerson(st1, f);
    if k < 6 {
      NobodyToRetire(r, f);
    } else if k < v.a + 6 {
      assert |r.people| == 1 by { OneWaits(v, r, k - 6); }
      WaitingStatus(v, r, k - 6);
    } else {
      var key := v.f0 + Least(k, v.a + v.b + 5);
      HowMany(v, r, key);
      if k < v.a + v.b + 13 {
        BothStatus(v, r, key, f);
      } else {
        BothLeave(v, r, key, f);
      }
    }
  }

  lemma OneWaits(v: Meeting, st: State, q: nat)
    requires Waiting(v, st, q)
    ensures |st.people| == 1
  {
  }

  lemma StoreKeepsStage(v: Meeting, st: State, r: State, k: nat)
    requires Stage(v, st, k) && r.people == st.people && r.inside == st.inside
    ensures Stage(v, r, k)
  {
  }

  lemma {:induction false} MeetingRun(v: Meeting, st: State, k: nat)
    requires Meets(v) && k <= |v.os| && Tracked(st.people)
    requires |st.frames| == HISTORY_LENGTH && Window(ScriptFor(v), st.frames, v.f0 + k) && Stage(v, st, k)
    ensures var r := Run(st, v.f0 + k, v.os[k..]);
            Window(ScriptFor(v), r.frames, v.f0 + |v.os|) && Stage(v, r, |v.os|)
    decreases |v.os| - k
  {
    hide Step, Stage, Window, Meets;
    if k < |v.os| {
      MeetingStep(v, st, k + 1);
      assert v.os[k..][0] == v.os[k] && v.os[k..][1..] == v.os[k + 1..];
      MeetingRun(v, Step(st, v.f0 + k + 1, v.os[k]), k + 1);
    }
  }

  /** One crosses while another comes in behind him: from the frame in which they are both in view the first
      is the one across, the second the newcomer, and as long as the one who has been there longer is also
      the one further left only he is counted, once and in his direction.  Then the scene is quiet again. */
  lemma OneCrossesWhileAnotherEnters(st: State, f: nat, v: Meeting)
    requires Quiet(st, f) && v.f0 == f && v.inside == st.inside && Meets(v)
    ensures var r := Run(st, f, v.os);
            Quiet(r, f + |v.os|) && r.inside == st.inside + if v.from == RightSide then 1 else -1
  {
    hide Step;
    Sizes(v);
    assert Window(ScriptFor(v), st.frames, f);
    assert v.os[0..] == v.os;
    MeetingRun(v, st, 0);
    var r := Run(st, f, v.os);
    forall g | 1 <= g && f + |v.os| - 4 <= g <= f + |v.os| ensures Seen(r.frames, g, []) && Valid(r.frames, g) {
      assert BodiesOf(ScriptFor(v), g) == v.os[g - f - 1].bodies == [];
    }
  }

  /** Why the order matters: once the first has crossed and the second is without direction, a frame with one
      body at either side gives the second a direction exactly if the body across is not the one further left. */
  lemma WrongOrderDirectsTheSecond(v: Meeting, st: State, frame: Frame, f: nat, i: nat)
    requires |st.frames| == HISTORY_LENGTH && v.from != UnknownSide && Both(v, st, f - 1) && Across(v, frame.bodies, i)
    ensures Tracked(st.people)
    ensures var r := Directed(MatchFrame(st, frame, f));
            && |r.people| == 2 && r.people[0].direction == Heading(v.from)
            && r.people[1].direction == if i == Leftmost(frame.bodies) then UnknownDir else Heading(v.from)
  {
    hide MatchFrame, Put;
    BothTracked(v, st, f - 1);
    TwoBodiesNotBothDirected(st, frame, f);
    var p := st.people[1];
    var b := frame.bodies[1 - Leftmost(frame.bodies)];
    PutEnds(p.trajectory, f, b);
    PutEnds(st.people[0].trajectory, f, frame.bodies[Leftmost(frame.bodies)]);
    FirstIsBeforeLast(p.trajectory);
  }
}
