/** The person tracker of src/OccupancyCounter.cpp as a state machine over frames.

    One step is one call of `process_frame`, with the image analysis replaced by its result:
    the side of the frame and the bodies found in it.  The functions of this module are the
    specification; `OccupancyCounter.Counter` carries out the same steps in place and is proved
    equal to them. */
module Tracker {

  const HISTORY_LENGTH := 10000
  const TRAJECTORY_LENGTH := 100000
  const DETECTION_DELAY := 3
  const WINDOW_SIZE := 10
  const OPOSITE_DIRECTION := false

  datatype Side = LeftSide | RightSide | UnknownSide
  datatype Direction = UnknownDir | LtoR | RtoL
  datatype Status = Unknown | Entered | Left
  datatype Counted = NotYet | LR | RL

  datatype Body = Body(side: Side, cx: int)

  /** `std::map<int, Body>`: the entries in key order. */
  type Trajectory = seq<(int, Body)>

  datatype Person = Person(id: nat, trajectory: Trajectory, status: Status, direction: Direction, counted: Counted)

  datatype Frame = Frame(number: nat, side: Side, valid: bool, bodies: seq<Body>)

  /** What the vision code reports for one frame. */
  datatype Observation = Observation(side: Side, bodies: seq<Body>)

  /** One change of the occupancy count: whose, and which way he walked. */
  datatype Passage = Passage(id: nat, direction: Direction)

  /** `ledger` is history: every passage counted so far. */
  datatype State = State(inside: int, total: nat, people: seq<Person>, frames: seq<Frame>, ledger: seq<Passage>)

  // The counter object is a global, so its frames start out zeroed.
  const EmptyFrame := Frame(0, LeftSide, false, [])

  function Initial(inside: int): State {
    State(inside, 0, [], seq(HISTORY_LENGTH, _ => EmptyFrame), [])
  }

  /** The ring slot of frame `n`, which may be a few frames before frame 0. */
  function Slot(n: int): (k: nat)
    ensures k < HISTORY_LENGTH
  {
    n % HISTORY_LENGTH
  }

  // ---------- trajectories ----------

  ghost predicate Sorted(t: Trajectory) {
    forall i, j :: 0 <= i < j < |t| ==> t[i].0 < t[j].0
  }

  /** `trajectory[key] = body` */
  function Put(t: Trajectory, key: int, body: Body): Trajectory {
    if t == [] || key < t[0].0 then [(key, body)] + t
    else if key == t[0].0 then [(key, body)] + t[1..]
    else [t[0]] + Put(t[1..], key, body)
  }

  function First(p: Person): Body
    requires p.trajectory != []
  {
    p.trajectory[0].1
  }

  function Last(p: Person): Body
    requires p.trajectory != []
  {
    p.trajectory[|p.trajectory| - 1].1
  }

  function LastKey(p: Person): int
    requires p.trajectory != []
  {
    p.trajectory[|p.trajectory| - 1].0
  }

  lemma {:induction false} PutMember(t: Trajectory, key: int, body: Body, e: (int, Body))
    requires Sorted(t)
    ensures e in Put(t, key, body) <==> e == (key, body) || (e in t && e.0 != key)
  {
    if t != [] {
      assert t == [t[0]] + t[1..];
      assert e in t <==> e == t[0] || e in t[1..];
      if key > t[0].0 {
        PutMember(t[1..], key, body, e);
      }
    }
  }

  /** What storing under a key does to a map: the new entry is there, every other one stays. */
  lemma {:induction false} PutIsMapUpdate(t: Trajectory, key: int, body: Body)
    requires Sorted(t)
    ensures Sorted(Put(t, key, body))
    ensures forall e :: e in Put(t, key, body) <==> e == (key, body) || (e in t && e.0 != key)
  {
    forall e ensures e in Put(t, key, body) <==> e == (key, body) || (e in t && e.0 != key) {
      PutMember(t, key, body, e);
    }
    if t != [] && key > t[0].0 {
      var rest := Put(t[1..], key, body);
      PutIsMapUpdate(t[1..], key, body);
      forall j | 0 <= j < |rest| ensures t[0].0 < rest[j].0 {
        assert rest[j] in rest;
      }
    }
  }

  lemma {:induction false} PutEnds(t: Trajectory, key: int, body: Body)
    requires Sorted(t)
    ensures Put(t, key, body) != []
    ensures |Put(t, key, body)| <= |t| + 1
    ensures var r := Put(t, key, body);
            if t == [] || t[|t| - 1].0 <= key then r[|r| - 1] == (key, body) else r[|r| - 1] == t[|t| - 1]
    ensures t != [] && t[0].0 < key ==> Put(t, key, body)[0] == t[0]
  {
    if t != [] && key > t[0].0 {
      PutEnds(t[1..], key, body);
    }
  }

  // ---------- frame correction ----------

  predicate Valid(frames: seq<Frame>, n: int)
    requires |frames| == HISTORY_LENGTH
  {
    frames[Slot(n)].valid
  }

  /** How far back (as a negative offset) the frame compared with slot `index` lies. */
  function Back(frames: seq<Frame>, index: nat, previous: int, count: nat): int
    requires |frames| == HISTORY_LENGTH && count <= WINDOW_SIZE
    decreases WINDOW_SIZE - count
  {
    if !Valid(frames, index + previous) && count < WINDOW_SIZE
    then Back(frames, index, previous - 1, count + 1)
    else previous
  }

  /** The frame at `index` disagrees with its successor while the frame before it agrees. */
  predicate Glitch(frames: seq<Frame>, index: nat)
    requires |frames| == HISTORY_LENGTH && index < HISTORY_LENGTH
  {
    var before := |frames[Slot(index + Back(frames, index, -1, 0))].bodies|;
    var after := |frames[Slot(index + 1)].bodies|;
    |frames[index].bodies| != after && before == after
  }

  /** `correct_frame`: the frames afterwards, and whether the frame may be used. */
  function CorrectFrame(frames: seq<Frame>, frame: Frame): (r: (seq<Frame>, bool))
    requires |frames| == HISTORY_LENGTH
    ensures |r.0| == HISTORY_LENGTH
  {
    var index := Slot(frame.number);
    if !frames[index].valid then (frames, false)
    else if Glitch(frames, index) then (frames[index := frames[index].(valid := false)], false)
    else (frames, true)
  }

  /** The comparison frame is the nearest earlier valid one, or the eleventh if the ten in between
      and before it are all invalid. */
  lemma {:induction false} BackFindsNearestValid(frames: seq<Frame>, index: nat, previous: int, count: nat)
    requires |frames| == HISTORY_LENGTH && count <= WINDOW_SIZE && previous == -1 - count
    requires forall n :: index - count <= n < index ==> !Valid(frames, n)
    ensures var m := index + Back(frames, index, previous, count);
            && index - (WINDOW_SIZE + 1) <= m < index
            && (forall n :: m < n < index ==> !Valid(frames, n))
            && (Valid(frames, m) || m == index - (WINDOW_SIZE + 1))
    decreases WINDOW_SIZE - count
  {
    if !Valid(frames, index + previous) && count < WINDOW_SIZE {
      BackFindsNearestValid(frames, index, previous - 1, count + 1);
    }
  }

  // ---------- matching ----------

  /** What matching decides to do: extend the trajectory of a tracked person, or start a new one. */
  datatype Action = Extend(who: nat, key: int, body: Body) | Admit(key: int, body: Body)

  /** The side of the most recent of the eleven frames before `key` whose side is known. */
  function RecentSide(frames: seq<Frame>, key: int, count: nat): Side
    requires |frames| == HISTORY_LENGTH && count <= 11
    decreases 11 - count
  {
    if count > WINDOW_SIZE then UnknownSide
    else
      var frame := frames[Slot(key - (count + 1))];
      if frame.valid && frame.side != UnknownSide then frame.side else RecentSide(frames, key, count + 1)
  }

  /** `create_new_person` */
  function AdmitPerson(st: State, key: int, body: Body): State
    requires |st.frames| == HISTORY_LENGTH
  {
    var side := if body.side == UnknownSide then RecentSide(st.frames, key, 0) else body.side;
    if side == UnknownSide then st
    else
      var newOne := Person(st.total, [(key, body.(side := side))], Unknown, UnknownDir, NotYet);
      st.(total := st.total + 1, people := st.people + [newOne])
  }

  function ExtendPerson(st: State, who: nat, key: int, body: Body): State {
    if who < |st.people| then
      var p := st.people[who];
      st.(people := st.people[who := p.(trajectory := Put(p.trajectory, key, body))])
    else st
  }

  function Act(st: State, action: Action): (r: State)
    requires |st.frames| == HISTORY_LENGTH
    ensures r.frames == st.frames
  {
    match action
    case Extend(who, key, body) => ExtendPerson(st, who, key, body)
    case Admit(key, body) => AdmitPerson(st, key, body)
  }

  function Perform(st: State, actions: seq<Action>): (r: State)
    requires |st.frames| == HISTORY_LENGTH
    ensures r.frames == st.frames
    decreases |actions|
  {
    if actions == [] then st else Perform(Act(st, actions[0]), actions[1..])
  }

  predicate Tracked(people: seq<Person>) {
    forall i :: 0 <= i < |people| ==> people[i].trajectory != []
  }

  /** `is_match` */
  predicate IsMatch(p: Person, b: Body) {
    match p.direction
    case UnknownDir => true
    case LtoR => b.side == RightSide
    case RtoL => b.side == LeftSide
  }

  /** One body in frame `g`, looked at while processing frame `f`. */
  function OneBody(people: seq<Person>, b: Body, g: int, f: int): seq<Action>
    requires Tracked(people)
  {
    if |people| == 0 then [Admit(g, b)]
    else if |people| == 1 then
      if IsMatch(people[0], b) then [Extend(0, g, b)] else [Admit(g, b)]
    else if |people| == 2 then
      var p1, p2 := people[0], people[1];
      if p1.direction == UnknownDir && p2.direction == UnknownDir then
        if First(p1).side != b.side then [Extend(0, f, b)]
        else if First(p2).side != b.side then [Extend(1, f, b)]
        else []
      else if p1.direction != UnknownDir && p2.direction != UnknownDir then
        if p1.direction == RtoL && b.side == LeftSide then [Extend(0, f, b)]
        else if p2.direction == RtoL && b.side == LeftSide then [Extend(1, f, b)]
        else if p1.direction == LtoR && b.side == RightSide then [Extend(0, f, b)]
        else if p2.direction == LtoR && b.side == RightSide then [Extend(1, f, b)]
        else [Admit(f, b)]
      else if p1.direction == UnknownDir then [Extend(0, f, b)]
      else [Extend(1, f, b)]
    else []
  }

  /** Two bodies and at least one tracked person. */
  function TwoBodies(people: seq<Person>, b1: Body, b2: Body, f: int): seq<Action>
    requires Tracked(people)
  {
    if |people| == 1 then
      var p := people[0];
      var first := First(p).side;
      if p.direction == UnknownDir then
        if b1.side == LeftSide && first == RightSide then [Extend(0, f, b1), Admit(f, b2)]
        else if b1.side == RightSide && first == LeftSide then [Extend(0, f, b1), Admit(f, b2)]
        else if b2.side == LeftSide && first == RightSide then [Extend(0, f, b2), Admit(f, b1)]
        else if b2.side == RightSide && first == LeftSide then [Extend(0, f, b2), Admit(f, b1)]
        else []
      else
        var origin := if p.direction == LtoR then LeftSide else RightSide;
        if b2.side == origin then [Extend(0, f, b1), Admit(f, b2)]
        else if b1.side == origin then [Extend(0, f, b2), Admit(f, b1)]
        else []
    else if |people| == 2 then
      var p1, p2 := people[0], people[1];
      if p1.direction != UnknownDir && p2.direction != UnknownDir then
        if p1.direction != p2.direction then []
        else
          var origin := if p1.direction == LtoR then LeftSide else RightSide;
          (if b1.side == origin then [Admit(f, b1)] else []) + (if b2.side == origin then [Admit(f, b2)] else [])
      else if b1.cx - Last(p1).cx <= b2.cx - Last(p1).cx then [Extend(0, f, b1), Extend(1, f, b2)]
      else [Extend(0, f, b2), Extend(1, f, b1)]
    else []
  }

  lemma AdmittingKeepsTracked(st: State, key: int, b1: Body, b2: Body)
    requires |st.frames| == HISTORY_LENGTH && Tracked(st.people)
    ensures Perform(st, [Admit(key, b1), Admit(key, b2)]) == AdmitPerson(AdmitPerson(st, key, b1), key, b2)
    ensures Tracked(Perform(st, [Admit(key, b1), Admit(key, b2)]).people)
  {
    var st1 := Act(st, Admit(key, b1));
    assert [Admit(key, b1), Admit(key, b2)][1..] == [Admit(key, b2)];
    assert Perform(st1, [Admit(key, b2)]) == Perform(Act(st1, Admit(key, b2)), []);
  }

  /** The branches of `match_body_person` on a usable frame.  With two bodies and nobody tracked, both
      are admitted and control falls through into the branch for tracked people. */
  function MatchFrame(st: State, frame: Frame, f: nat): (r: State)
    requires |st.frames| == HISTORY_LENGTH && Tracked(st.people)
    ensures r.frames == st.frames
  {
    if |frame.bodies| == 1 then
      Perform(st, OneBody(st.people, frame.bodies[0], frame.number, f))
    else if |frame.bodies| == 2 then
      var b1, b2 := frame.bodies[0], frame.bodies[1];
      var st1 := if st.people == [] then Perform(st, [Admit(frame.number, b1), Admit(frame.number, b2)]) else st;
      assert Tracked(st1.people) by { AdmittingKeepsTracked(st, frame.number, b1, b2); }
      Perform(st1, TwoBodies(st1.people, b1, b2, f))
    else st
  }

  function UpdateDirection(p: Person): Person {
    if p.direction != UnknownDir || p.trajectory == [] then p
    else if First(p).side == LeftSide && Last(p).side == RightSide then p.(direction := LtoR)
    else if First(p).side == RightSide && Last(p).side == LeftSide then p.(direction := RtoL)
    else p
  }

  function UpdateDirections(people: seq<Person>): (r: seq<Person>)
    ensures |r| == |people|
  {
    seq(|people|, i requires 0 <= i < |people| => UpdateDirection(people[i]))
  }

  /** `match_body_person` */
  function MatchBodyPerson(st: State, f: nat): State
    requires |st.frames| == HISTORY_LENGTH && Tracked(st.people)
  {
    var frame := st.frames[Slot(f - 5)];
    var (frames, usable) := CorrectFrame(st.frames, frame);
    var st1 := st.(frames := frames);
    if !usable || |frame.bodies| == 0 then st1
    else
      var st2 := MatchFrame(st1, frame, f);
      st2.(people := UpdateDirections(st2.people))
  }

  // ---------- counting and retirement ----------

  function Delta(d: Direction): int {
    match d
    case UnknownDir => 0
    case LtoR => if OPOSITE_DIRECTION then 1 else -1
    case RtoL => if OPOSITE_DIRECTION then -1 else 1
  }

  function Mark(d: Direction): Counted {
    match d
    case UnknownDir => NotYet
    case LtoR => LR
    case RtoL => RL
  }

  predicate Countable(p: Person) {
    p.direction != UnknownDir && p.counted != Mark(p.direction)
  }

  /** `check_trajectory` on the person at `i` */
  function CheckTrajectory(st: State, i: nat): (r: State)
    requires i < |st.people|
    ensures |r.people| == |st.people| && r.frames == st.frames
  {
    var p := st.people[i];
    if Countable(p) then
      st.(inside := st.inside + Delta(p.direction),
      people := st.people[i := p.(counted := Mark(p.direction))],
      ledger := st.ledger + [Passage(p.id, p.direction)])
    else st
  }

  function Without(people: seq<Person>, i: nat): seq<Person>
    requires i < |people|
  {
    people[..i] + people[i + 1..]
  }

  /** One round of the loop of `update_people_status` */
  function StatusAt(st: State, i: nat, f: nat): (r: State)
    requires i < |st.people| && Tracked(st.people)
    ensures i <= |r.people| && r.frames == st.frames
  {
    var p := st.people[i];
    if p.status == Left then st.(people := Without(st.people, i))
    else if |p.trajectory| >= TRAJECTORY_LENGTH then
      var st1 := CheckTrajectory(st, i);
      var q := st1.people[i];
      st1.(people := st1.people[i := q.(trajectory := q.trajectory[|q.trajectory| - 1..])])
    else if f - LastKey(p) - 5 >= DETECTION_DELAY then
      var st1 := CheckTrajectory(st, i);
      st1.(people := Without(st1.people, i))
    else if |st.people| > 2 && Countable(p) then
      var st1 := CheckTrajectory(st, i);
      st1.(people := Without(st1.people, i))
    else st
  }

  /** `update_people_status`, still to visit the persons before index `n` */
  function UpdateStatus(st: State, n: nat, f: nat): (r: State)
    requires n <= |st.people| && Tracked(st.people)
    ensures r.frames == st.frames
    decreases n
  {
    if n == 0 then st
    else
      var st1 := StatusAt(st, n - 1, f);
      assert Tracked(st1.people) by { StatusKeepsTracked(st, n - 1, f); }
      UpdateStatus(st1, n - 1, f)
  }

  lemma StatusKeepsTracked(st: State, i: nat, f: nat)
    requires i < |st.people| && Tracked(st.people)
    ensures Tracked(StatusAt(st, i, f).people)
  {
  }

  // ---------- one frame, and runs ----------

  /** `frames[frameN % HISTORY_LENGTH] = frame_` */
  function Store(st: State, f: nat, o: Observation): State
    requires |st.frames| == HISTORY_LENGTH
  {
    st.(frames := st.frames[Slot(f) := Frame(f, o.side, true, o.bodies)])
  }

  lemma {:induction false} PerformKeepsTracked(st: State, actions: seq<Action>)
    requires |st.frames| == HISTORY_LENGTH && Tracked(st.people)
    ensures Tracked(Perform(st, actions).people)
    decreases |actions|
  {
    if actions != [] {
      PerformKeepsTracked(Act(st, actions[0]), actions[1..]);
    }
  }

  lemma MatchKeepsTracked(st: State, f: nat)
    requires |st.frames| == HISTORY_LENGTH && Tracked(st.people)
    ensures Tracked(MatchBodyPerson(st, f).people)
    ensures |MatchBodyPerson(st, f).frames| == HISTORY_LENGTH
  {
    var frame := st.frames[Slot(f - 5)];
    var (frames, usable) := CorrectFrame(st.frames, frame);
    var st1 := st.(frames := frames);
    if |frame.bodies| == 1 {
      PerformKeepsTracked(st1, OneBody(st.people, frame.bodies[0], frame.number, f));
    } else if |frame.bodies| == 2 {
      var b1, b2 := frame.bodies[0], frame.bodies[1];
      AdmittingKeepsTracked(st1, frame.number, b1, b2);
      var st2 := if st.people == [] then Perform(st1, [Admit(frame.number, b1), Admit(frame.number, b2)]) else st1;
      PerformKeepsTracked(st2, TwoBodies(st2.people, b1, b2, f));
    }
  }

  lemma {:induction false} UpdateStatusKeepsTracked(st: State, n: nat, f: nat)
    requires n <= |st.people| && Tracked(st.people)
    ensures Tracked(UpdateStatus(st, n, f).people)
    decreases n
  {
    if n > 0 {
      StatusKeepsTracked(st, n - 1, f);
      UpdateStatusKeepsTracked(StatusAt(st, n - 1, f), n - 1, f);
    }
  }

  /** `process_frame` */
  function Step(st: State, f: nat, o: Observation): (r: State)
    requires |st.frames| == HISTORY_LENGTH && Tracked(st.people)
    ensures |r.frames| == HISTORY_LENGTH && Tracked(r.people)
  {
    var st1 := Store(st, f, o);
    MatchKeepsTracked(st1, f);
    var st2 := MatchBodyPerson(st1, f);
    UpdateStatusKeepsTracked(st2, |st2.people|, f);
    UpdateStatus(st2, |st2.people|, f)
  }

  /** The frames `f + 1`, `f + 2`, ... processed one after the other. */
  function Run(st: State, f: nat, os: seq<Observation>): (r: State)
    requires |st.frames| == HISTORY_LENGTH && Tracked(st.people)
    ensures |r.frames| == HISTORY_LENGTH && Tracked(r.people)
    decreases |os|
  {
    if os == [] then st else Run(Step(st, f + 1, os[0]), f + 1, os[1..])
  }

  lemma RunUnfolds(st: State, f: nat, os: seq<Observation>)
    requires |st.frames| == HISTORY_LENGTH && Tracked(st.people) && os != []
    ensures Run(st, f, os) == Run(Step(st, f + 1, os[0]), f + 1, os[1..])
  {
  }
}
