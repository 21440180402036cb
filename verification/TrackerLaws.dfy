/** Which body goes to whom: the rules of `match_body_person`, one for each number of bodies and persons,
    in terms of the sides from which people came and to which they go. */
module TrackerLaws {
  import opened Tracker
  import opened TrackerWalks

  /** Where somebody with a known direction comes from. */
  function Origin(d: Direction): Side {
    match d
    case UnknownDir => UnknownSide
    case LtoR => LeftSide
    case RtoL => RightSide
  }

  function Destination(d: Direction): Side {
    Opposite(Origin(d))
  }

  // ---------- newcomers ----------

  predicate SideKnown(frames: seq<Frame>, n: int)
    requires |frames| == HISTORY_LENGTH
  {
    frames[Slot(n)].valid && frames[Slot(n)].side != UnknownSide
  }

  lemma {:induction false} RecentSideFrom(frames: seq<Frame>, key: int, count: nat) returns (d: int)
    requires |frames| == HISTORY_LENGTH && count <= 11
    ensures var side := RecentSide(frames, key, count);
            if side == UnknownSide then forall n :: key - 11 <= n < key - count ==> !SideKnown(frames, n)
            else key - 11 <= d < key - count && SideKnown(frames, d) && side == frames[Slot(d)].side
                 && forall n :: d < n < key - count ==> !SideKnown(frames, n)
    decreases 11 - count
  {
    d := key - (count + 1);
    if count <= 10 && !SideKnown(frames, d) {
      d := RecentSideFrom(frames, key, count + 1);
    }
  }

  /** A newcomer gets the next number, and a trajectory of one entry.  If the side of the body is unknown it
      is that of the most recent of the eleven frames before whose side is known; if there is none, nobody
      is admitted. */
  lemma Newcomer(st: State, key: int, body: Body) returns (d: int)
    requires |st.frames| == HISTORY_LENGTH
    ensures var known := body.side != UnknownSide;
            var r := AdmitPerson(st, key, body);
            if known || exists n :: key - 11 <= n < key && SideKnown(st.frames, n) then
              && (!known ==> key - 11 <= d < key && SideKnown(st.frames, d)
                             && forall n :: d < n < key ==> !SideKnown(st.frames, n))
              && var side := if known then body.side else st.frames[Slot(d)].side;
                 r == st.(total := st.total + 1,
                          people := st.people + [Person(st.total, [(key, Body(side, body.cx))], Unknown, UnknownDir, NotYet)])
            else r == st
  {
    d := RecentSideFrom(st.frames, key, 0);
  }

  // ---------- who is matched ----------

  lemma PerformOne(st: State, a: Action)
    requires |st.frames| == HISTORY_LENGTH
    ensures Perform(st, [a]) == Act(st, a) && Perform(st, []) == st
  {
    assert [a][1..] == [];
  }

  lemma PerformTwo(st: State, a: Action, b: Action)
    requires |st.frames| == HISTORY_LENGTH
    ensures Perform(st, [a, b]) == Act(Act(st, a), b)
  {
    assert [a, b][1..] == [b];
    PerformOne(Act(st, a), b);
  }

  /** One body and nobody tracked, or one person: he takes the body unless he has a direction and the body
      is not where he is heading; then somebody else has come in. */
  lemma OneBodyAtMostOnePerson(st: State, frame: Frame, f: nat)
    requires |st.frames| == HISTORY_LENGTH && Tracked(st.people) && |frame.bodies| == 1 && |st.people| <= 1
    ensures var b := frame.bodies[0];
            MatchFrame(st, frame, f) ==
            if |st.people| == 1 && (st.people[0].direction == UnknownDir || Destination(st.people[0].direction) == b.side)
            then ExtendPerson(st, 0, frame.number, b)
            else AdmitPerson(st, frame.number, b)
  {
    PerformOne(st, Admit(frame.number, frame.bodies[0]));
    PerformOne(st, Extend(0, frame.number, frame.bodies[0]));
  }

  /** One body and two persons without direction: the first of them who did not begin on that side. */
  lemma OneBodyTwoUndirected(st: State, frame: Frame, f: nat)
    requires |st.frames| == HISTORY_LENGTH && Tracked(st.people) && |frame.bodies| == 1 && |st.people| == 2
    requires st.people[0].direction == UnknownDir && st.people[1].direction == UnknownDir
    ensures var b := frame.bodies[0];
            MatchFrame(st, frame, f) ==
            if First(st.people[0]).side != b.side then ExtendPerson(st, 0, f, b)
            else if First(st.people[1]).side != b.side then ExtendPerson(st, 1, f, b)
            else st
  {
    PerformOne(st, Extend(0, f, frame.bodies[0]));
    PerformOne(st, Extend(1, f, frame.bodies[0]));
  }

  /** One body and two persons with directions: the first of them heading for that side, or a newcomer. */
  lemma OneBodyTwoDirected(st: State, frame: Frame, f: nat)
    requires |st.frames| == HISTORY_LENGTH && Tracked(st.people) && |frame.bodies| == 1 && |st.people| == 2
    requires st.people[0].direction != UnknownDir && st.people[1].direction != UnknownDir
    ensures var b := frame.bodies[0];
            MatchFrame(st, frame, f) ==
            if Destination(st.people[0].direction) == b.side then ExtendPerson(st, 0, f, b)
            else if Destination(st.people[1].direction) == b.side then ExtendPerson(st, 1, f, b)
            else AdmitPerson(st, f, b)
  {
    PerformOne(st, Extend(0, f, frame.bodies[0]));
    PerformOne(st, Extend(1, f, frame.bodies[0]));
    PerformOne(st, Admit(f, frame.bodies[0]));
  }

  /** One body and two persons, one with a direction: the other one takes it. */
  lemma OneBodyOneUndirected(st: State, frame: Frame, f: nat, i: nat)
    requires |st.frames| == HISTORY_LENGTH && Tracked(st.people) && |frame.bodies| == 1 && |st.people| == 2 && i < 2
    requires st.people[i].direction == UnknownDir && st.people[1 - i].direction != UnknownDir
    ensures MatchFrame(st, frame, f) == ExtendPerson(st, i, f, frame.bodies[0])
  {
    PerformOne(st, Extend(i, f, frame.bodies[0]));
  }

  /** The body, of two, at some side: the first of them there, or the last. */
  function FirstAt(bodies: seq<Body>, side: Side): nat
    requires |bodies| == 2
  {
    if bodies[0].side == side then 0 else 1
  }

  function LastAt(bodies: seq<Body>, side: Side): nat
    requires |bodies| == 2
  {
    if bodies[1].side == side then 1 else 0
  }

  /** Two bodies and one person without direction: he takes the body on the side opposite to where he began,
      and the other body is a newcomer.  With no body there nothing happens. */
  lemma TwoBodiesOneUndirected(st: State, frame: Frame, f: nat)
    requires |st.frames| == HISTORY_LENGTH && Tracked(st.people) && |frame.bodies| == 2 && |st.people| == 1
    requires st.people[0].direction == UnknownDir
    ensures var far := Opposite(First(st.people[0]).side);
            var i := FirstAt(frame.bodies, far);
            MatchFrame(st, frame, f) ==
            if far != UnknownSide && frame.bodies[i].side == far then
              AdmitPerson(ExtendPerson(st, 0, f, frame.bodies[i]), f, frame.bodies[1 - i])
            else st
  {
    PerformTwo(st, Extend(0, f, frame.bodies[0]), Admit(f, frame.bodies[1]));
    PerformTwo(st, Extend(0, f, frame.bodies[1]), Admit(f, frame.bodies[0]));
    PerformOne(st, Admit(f, frame.bodies[0]));
  }

  /** Two bodies and one person with a direction: the body where he came from is a newcomer and he takes the
      other one.  With no body there nothing happens. */
  lemma TwoBodiesOneDirected(st: State, frame: Frame, f: nat)
    requires |st.frames| == HISTORY_LENGTH && Tracked(st.people) && |frame.bodies| == 2 && |st.people| == 1
    requires st.people[0].direction != UnknownDir
    ensures var origin := Origin(st.people[0].direction);
            var i := LastAt(frame.bodies, origin);
            MatchFrame(st, frame, f) ==
            if frame.bodies[i].side == origin then
              AdmitPerson(ExtendPerson(st, 0, f, frame.bodies[1 - i]), f, frame.bodies[i])
            else st
  {
    PerformTwo(st, Extend(0, f, frame.bodies[0]), Admit(f, frame.bodies[1]));
    PerformTwo(st, Extend(0, f, frame.bodies[1]), Admit(f, frame.bodies[0]));
    PerformOne(st, Admit(f, frame.bodies[0]));
  }

  /** Two bodies and two persons, not both with a direction: the person who has been there longer takes the
      body further left, the other person the other body. */
  lemma TwoBodiesNotBothDirected(st: State, frame: Frame, f: nat)
    requires |st.frames| == HISTORY_LENGTH && Tracked(st.people) && |frame.bodies| == 2 && |st.people| == 2
    requires st.people[0].direction == UnknownDir || st.people[1].direction == UnknownDir
    ensures var i := if frame.bodies[0].cx <= frame.bodies[1].cx then 0 else 1;
            MatchFrame(st, frame, f) == ExtendPerson(ExtendPerson(st, 0, f, frame.bodies[i]), 1, f, frame.bodies[1 - i])
  {
    PerformTwo(st, Extend(0, f, frame.bodies[0]), Extend(1, f, frame.bodies[1]));
    PerformTwo(st, Extend(0, f, frame.bodies[1]), Extend(1, f, frame.bodies[0]));
  }

  function AdmitIf(st: State, there: bool, key: int, body: Body): (r: State)
    requires |st.frames| == HISTORY_LENGTH
    ensures r.frames == st.frames
  {
    if there then AdmitPerson(st, key, body) else st
  }

  /** Two bodies and two persons with directions: if both head the same way, every body where they came from
      is a newcomer; otherwise nothing happens. */
  lemma TwoBodiesBothDirected(st: State, frame: Frame, f: nat)
    requires |st.frames| == HISTORY_LENGTH && Tracked(st.people) && |frame.bodies| == 2 && |st.people| == 2
    requires st.people[0].direction != UnknownDir && st.people[1].direction != UnknownDir
    ensures var d, b1, b2 := st.people[0].direction, frame.bodies[0], frame.bodies[1];
            MatchFrame(st, frame, f) ==
            if d == st.people[1].direction then
              AdmitIf(AdmitIf(st, b1.side == Origin(d), f, b1), b2.side == Origin(d), f, b2)
            else st
  {
    var b1, b2 := frame.bodies[0], frame.bodies[1];
    PerformTwo(st, Admit(f, b1), Admit(f, b2));
    PerformOne(st, Admit(f, b1));
    PerformOne(st, Admit(f, b2));
    assert [] + [Admit(f, b2)] == [Admit(f, b2)];
    assert [Admit(f, b1)] + [] == [Admit(f, b1)];
    assert [Admit(f, b1)] + [Admit(f, b2)] == [Admit(f, b1), Admit(f, b2)];
  }

  /** Two bodies and nobody tracked: both are newcomers, under the number of the frame, and then the rules for
      the persons there are now apply to the same two bodies. */
  lemma TwoBodiesNobody(st: State, frame: Frame, f: nat)
    requires |st.frames| == HISTORY_LENGTH && st.people == [] && |frame.bodies| == 2
    ensures var st1 := AdmitPerson(AdmitPerson(st, frame.number, frame.bodies[0]), frame.number, frame.bodies[1]);
            && Tracked(st1.people)
            && MatchFrame(st, frame, f) == if st1.people == [] then st1 else MatchFrame(st1, frame, f)
  {
    AdmittingKeepsTracked(st, frame.number, frame.bodies[0], frame.bodies[1]);
    PerformOne(st, Admit(f, frame.bodies[0]));
    hide Perform, AdmitPerson;
  }

  /** More persons or more bodies than two, or none: nothing is matched. */
  lemma Crowds(st: State, frame: Frame, f: nat)
    requires |st.frames| == HISTORY_LENGTH && Tracked(st.people)
    requires |st.people| > 2 || |frame.bodies| == 0 || |frame.bodies| > 2
    ensures MatchFrame(st, frame, f) == st
  {
    if |st.people| > 2 {
      PerformOne(st, Admit(f, Body(UnknownSide, 0)));
    }
  }

  // ---------- what comes of it ----------

  /** Somebody last seen on the side opposite to where he began has crossed, and nobody else gets a
      direction; a known one stays. */
  lemma Heads(p: Person)
    requires p.trajectory != []
    ensures UpdateDirection(p).direction ==
            if p.direction != UnknownDir then p.direction
            else if First(p).side != UnknownSide && Last(p).side == Opposite(First(p).side) then Heading(First(p).side)
            else UnknownDir
    ensures UpdateDirection(p) == p.(direction := UpdateDirection(p).direction)
  {
  }

  /** Two bodies, one of them across: the one person tracked crosses and gets the direction, and the other
      body, wherever its side is known, starts somebody new who has none. */
  lemma OneCrossesAnotherEnters(st: State, frame: Frame, f: nat, i: nat)
    requires |st.frames| == HISTORY_LENGTH && |frame.bodies| == 2 && |st.people| == 1 && i < 2
    requires var p := st.people[0];
             && p.trajectory != [] && Sorted(p.trajectory) && LastKey(p) < f && p.direction == UnknownDir
             && First(p).side != UnknownSide && frame.bodies[i].side == Opposite(First(p).side)
             && frame.bodies[1 - i].side != Opposite(First(p).side) && frame.bodies[1 - i].side != UnknownSide
    ensures Tracked(st.people)
    ensures var p, r := st.people[0], MatchFrame(st, frame, f);
            var people := UpdateDirections(r.people);
            && |people| == 2 && r.inside == st.inside && r.total == st.total + 1
            && people[0] == p.(trajectory := Put(p.trajectory, f, frame.bodies[i]), direction := Heading(First(p).side))
            && people[1] == Person(st.total, [(f, frame.bodies[1 - i])], Unknown, UnknownDir, NotYet)
  {
    hide MatchFrame, Put;
    var p := st.people[0];
    TwoBodiesOneUndirected(st, frame, f);
    PutEnds(p.trajectory, f, frame.bodies[i]);
    FirstIsBeforeLast(p.trajectory);
    assert frame.bodies[1 - i].(side := frame.bodies[1 - i].side) == frame.bodies[1 - i];
  }

  // ---------- crowds ----------

  /** When more than two persons are left at the end of a frame, everybody with a direction is counted:
      those who were not have been counted and taken out. */
  lemma {:induction false} CrowdIsCounted(st: State, n: nat, f: nat)
    requires n <= |st.people| && Tracked(st.people)
    requires |st.people| > 2 ==> forall i :: n <= i < |st.people| ==> !Countable(st.people[i])
    ensures var r := UpdateStatus(st, n, f);
            |r.people| <= |st.people| && (|r.people| > 2 ==> forall i :: 0 <= i < |r.people| ==> !Countable(r.people[i]))
    decreases n
  {
    hide StatusAt, Countable;
    if n > 0 {
      var st1 := StatusAt(st, n - 1, f);
      StatusKeepsTracked(st, n - 1, f);
      CrowdStep(st, n - 1, f);
      CrowdIsCounted(st1, n - 1, f);
    }
  }

  lemma CrowdStep(st: State, i: nat, f: nat)
    requires i < |st.people| && Tracked(st.people)
    requires |st.people| > 2 ==> forall j :: i < j < |st.people| ==> !Countable(st.people[j])
    ensures var r := StatusAt(st, i, f);
            && i <= |r.people| <= |st.people|
            && (|r.people| > 2 ==> forall j :: i <= j < |r.people| ==> !Countable(r.people[j]))
  {
  }
}
