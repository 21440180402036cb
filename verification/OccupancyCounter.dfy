/** The occupancy counter object of src/OccupancyCounter.cpp: its methods change the ring of frames, the
    list of people and the counters in place, and do what the functions of `Tracker` say. */
module OccupancyCounter {
  import opened Tracker

  class Counter {
    var peopleInside: int
    var totalPeople: nat
    var people: seq<Person>
    const frames: array<Frame>
    ghost var ledger: seq<Passage>

    ghost predicate Valid()
      reads this
    {
      frames.Length == HISTORY_LENGTH && Tracked(people)
    }

    ghost function Abs(): State
      reads this, frames
    {
      State(peopleInside, totalPeople, people, frames[..], ledger)
    }

    constructor (inside: int)
      ensures Valid() && fresh(frames) && Abs() == Initial(inside)
    {
      peopleInside, totalPeople, people := inside, 0, [];
      frames := new Frame[HISTORY_LENGTH](_ => EmptyFrame);
      ledger := [];
    }

    /** `correct_frame` */
    method CorrectFrame(frame: Frame) returns (usable: bool)
      requires Valid()
      modifies frames
      ensures (frames[..], usable) == Tracker.CorrectFrame(old(frames[..]), frame)
    {
      var index := frame.number % HISTORY_LENGTH;
      if !frames[index].valid {
        return false;
      }
      var previous, count := -1, 0;
      while !frames[(index + previous + HISTORY_LENGTH) % HISTORY_LENGTH].valid && count < WINDOW_SIZE
        invariant 0 <= count <= WINDOW_SIZE && previous == -1 - count
        invariant frames[..] == old(frames[..])
        invariant Back(frames[..], index, -1, 0) == Back(frames[..], index, previous, count)
        decreases WINDOW_SIZE - count
      {
        SlotOfSum(index, previous);
        previous := previous - 1;
        count := count + 1;
      }
      SlotOfSum(index, previous);
      var next := 1;
      var prevIndex := (index + previous + HISTORY_LENGTH) % HISTORY_LENGTH;
      var nextIndex := (index + next) % HISTORY_LENGTH;
      if |frames[index].bodies| != |frames[nextIndex].bodies| {
        if |frames[prevIndex].bodies| == |frames[nextIndex].bodies| {
          frames[index] := frames[index].(valid := false);
          assert frames[..] == old(frames[..])[index := old(frames[index]).(valid := false)];
          return false;
        }
      }
      return true;
    }

    /** `create_new_person` */
    method CreateNewPerson(body: Body, frameN: int)
      requires Valid() && 0 <= frameN
      modifies this
      ensures Valid() && Abs() == AdmitPerson(old(Abs()), frameN, body)
    {
      var b := body;
      if b.side == UnknownSide {
        var count := 0;
        var frameIndex := Slot(frameN);
        while count <= 10
          invariant 0 <= count <= 11
          invariant b.side == UnknownSide && b == body
          invariant Valid() && Abs() == old(Abs())
          invariant RecentSide(frames[..], frameN, 0) == RecentSide(frames[..], frameN, count)
        {
          count := count + 1;
          var index := (frameIndex - count + HISTORY_LENGTH) % HISTORY_LENGTH;
          SlotOfSum(frameIndex, -count);
          SlotOfShift(frameN, -count);
          if frames[index].valid && frames[index].side != UnknownSide {
            b := b.(side := frames[index].side);
            break;
          }
        }
        assert b.side == RecentSide(frames[..], frameN, 0);
      }
      if b.side == UnknownSide {
        return;
      }
      var newOne := Person(totalPeople, [(frameN, b)], Unknown, UnknownDir, NotYet);
      totalPeople := totalPeople + 1;
      people := people + [newOne];
    }

    /** `people.at(who).trajectory[key] = body` */
    method ExtendTrajectory(who: nat, key: int, body: Body)
      requires Valid() && who < |people|
      modifies `people
      ensures Valid() && Abs() == ExtendPerson(old(Abs()), who, key, body)
    {
      var p := people[who];
      people := people[who := p.(trajectory := Put(p.trajectory, key, body))];
    }

    /** The branches of `match_body_person` for one body. */
    method MatchOneBody(b: Body, g: int, frameN: int)
      requires Valid() && 0 <= g && 0 <= frameN
      modifies this
      ensures Valid() && Abs() == Perform(old(Abs()), OneBody(old(people), b, g, frameN))
    {
      if |people| == 0 {
        CreateNewPerson(b, g);
      } else if |people| == 1 {
        if IsMatch(people[0], b) {
          ExtendTrajectory(0, g, b);
        } else {
          CreateNewPerson(b, g);
        }
      } else if |people| == 2 {
        var p1, p2 := people[0], people[1];
        if p1.direction == UnknownDir && p2.direction == UnknownDir {
          if First(p1).side != b.side {
            ExtendTrajectory(0, frameN, b);
          } else if First(p2).side != b.side {
            ExtendTrajectory(1, frameN, b);
          }
        } else if p1.direction != UnknownDir && p2.direction != UnknownDir {
          if p1.direction == RtoL && b.side == LeftSide {
            ExtendTrajectory(0, frameN, b);
          } else if p2.direction == RtoL && b.side == LeftSide {
            ExtendTrajectory(1, frameN, b);
          } else if p1.direction == LtoR && b.side == RightSide {
            ExtendTrajectory(0, frameN, b);
          } else if p2.direction == LtoR && b.side == RightSide {
            ExtendTrajectory(1, frameN, b);
          } else {
            CreateNewPerson(b, frameN);
          }
        } else if p1.direction == UnknownDir {
          ExtendTrajectory(0, frameN, b);
        } else {
          ExtendTrajectory(1, frameN, b);
        }
      }
    }

    /** The branches of `match_body_person` for two bodies and one person. */
    method MatchTwoBodiesToOne(b1: Body, b2: Body, frameN: int)
      requires Valid() && |people| == 1 && 0 <= frameN
      modifies this
      ensures Valid() && Abs() == Perform(old(Abs()), TwoBodies(old(people), b1, b2, frameN))
    {
      PerformUpToTwo(Abs(), TwoBodies(people, b1, b2, frameN));
      var p := people[0];
      var first := First(p).side;
      if p.direction == UnknownDir {
        if b1.side == LeftSide && first == RightSide {
          ExtendTrajectory(0, frameN, b1);
          CreateNewPerson(b2, frameN);
        } else if b1.side == RightSide && first == LeftSide {
          ExtendTrajectory(0, frameN, b1);
          CreateNewPerson(b2, frameN);
        } else if b2.side == LeftSide && first == RightSide {
          ExtendTrajectory(0, frameN, b2);
          CreateNewPerson(b1, frameN);
        } else if b2.side == RightSide && first == LeftSide {
          ExtendTrajectory(0, frameN, b2);
          CreateNewPerson(b1, frameN);
        }
      } else if p.direction == LtoR {
        if b2.side == LeftSide {
          ExtendTrajectory(0, frameN, b1);
          CreateNewPerson(b2, frameN);
        } else if b1.side == LeftSide {
          ExtendTrajectory(0, frameN, b2);
          CreateNewPerson(b1, frameN);
        }
      } else if p.direction == RtoL {
        if b2.side == RightSide {
          ExtendTrajectory(0, frameN, b1);
          CreateNewPerson(b2, frameN);
        } else if b1.side == RightSide {
          ExtendTrajectory(0, frameN, b2);
          CreateNewPerson(b1, frameN);
        }
      }
    }

    /** The branches of `match_body_person` for two bodies and two persons. */
    method MatchTwoBodiesToTwo(b1: Body, b2: Body, frameN: int)
      requires Valid() && |people| == 2 && 0 <= frameN
      modifies this
      ensures Valid() && Abs() == Perform(old(Abs()), TwoBodies(old(people), b1, b2, frameN))
    {
      PerformUpToTwo(Abs(), TwoBodies(people, b1, b2, frameN));
      var p1, p2 := people[0], people[1];
      var b1p1 := b1.cx - Last(p1).cx;
      var b2p1 := b2.cx - Last(p1).cx;
      if p1.direction != UnknownDir && p2.direction != UnknownDir {
        if p1.direction == LtoR && p2.direction == LtoR {
          if b1.side == LeftSide {
            CreateNewPerson(b1, frameN);
          }
          if b2.side == LeftSide {
            CreateNewPerson(b2, frameN);
          }
        }
        if p1.direction == RtoL && p2.direction == RtoL {
          if b1.side == RightSide {
            CreateNewPerson(b1, frameN);
          }
          if b2.side == RightSide {
            CreateNewPerson(b2, frameN);
          }
        }
      } else if b1p1 <= b2p1 {
        ExtendTrajectory(0, frameN, b1);
        ExtendTrajectory(1, frameN, b2);
      } else {
        ExtendTrajectory(0, frameN, b2);
        ExtendTrajectory(1, frameN, b1);
      }
    }

    /** `update_people_direction` */
    method UpdatePeopleDirection()
      requires Valid()
      modifies `people
      ensures Valid() && people == UpdateDirections(old(people))
    {
      var i := 0;
      while i < |people|
        invariant 0 <= i <= |people| == |old(people)| && Tracked(people)
        invariant forall j :: 0 <= j < i ==> people[j] == UpdateDirection(old(people)[j])
        invariant forall j :: i <= j < |people| ==> people[j] == old(people)[j]
      {
        var p := people[i];
        if p.direction == UnknownDir {
          if First(p).side == LeftSide && Last(p).side == RightSide {
            people := people[i := p.(direction := LtoR)];
          } else if First(p).side == RightSide && Last(p).side == LeftSide {
            people := people[i := p.(direction := RtoL)];
          }
        }
        i := i + 1;
      }
    }

    /** The cases of `match_body_person`, one body or two. */
    method MatchBodies(frame: Frame, frameN: nat)
      requires Valid() && |frame.bodies| > 0
      modifies this
      ensures Valid() && Abs() == MatchFrame(old(Abs()), frame, frameN)
    {
      hide OneBody;
      if |frame.bodies| == 1 {
        MatchOneBody(frame.bodies[0], frame.number, frameN);
      } else if |frame.bodies| == 2 {
        var b1, b2 := frame.bodies[0], frame.bodies[1];
        AdmittingKeepsTracked(Abs(), frame.number, b1, b2);
        if |people| == 0 {
          CreateNewPerson(b1, frame.number);
          CreateNewPerson(b2, frame.number);
        }
        if |people| == 1 {
          MatchTwoBodiesToOne(b1, b2, frameN);
        } else if |people| == 2 {
          MatchTwoBodiesToTwo(b1, b2, frameN);
        }
      }
    }

    /** `match_body_person` */
    method MatchBodyPerson(frameN: nat)
      requires Valid()
      modifies this, frames
      ensures Valid() && Abs() == Tracker.MatchBodyPerson(old(Abs()), frameN)
    {
      hide MatchFrame, Glitch, UpdateDirections;
      SlotOfSum(frameN - 5, 0);
      var frame := frames[(frameN - 5 + HISTORY_LENGTH) % HISTORY_LENGTH];
      var usable := CorrectFrame(frame);
      if !usable {
        return;
      }
      if |frame.bodies| == 0 {
        return;
      }
      MatchBodies(frame, frameN);
      UpdatePeopleDirection();
    }

    /** `check_trajectory` */
    method CheckTrajectory(i: nat) returns (counted: bool)
      requires Valid() && i < |people|
      modifies this
      ensures Valid() && Abs() == Tracker.CheckTrajectory(old(Abs()), i)
      ensures counted <==> Countable(old(people)[i])
    {
      var p := people[i];
      if p.direction == LtoR && p.counted != LR {
        people := people[i := p.(counted := LR)];
        peopleInside := if OPOSITE_DIRECTION then peopleInside + 1 else peopleInside - 1;
        ledger := ledger + [Passage(p.id, LtoR)];
        return true;
      } else if p.direction == RtoL && p.counted != RL {
        people := people[i := p.(counted := RL)];
        peopleInside := if OPOSITE_DIRECTION then peopleInside - 1 else peopleInside + 1;
        ledger := ledger + [Passage(p.id, RtoL)];
        return true;
      }
      return false;
    }

    /** The body of the loop of `update_people_status`. */
    method UpdateStatusAt(i: nat, frameN: nat) returns (counted: bool)
      requires Valid() && i < |people|
      modifies this
      ensures Valid() && Abs() == StatusAt(old(Abs()), i, frameN)
      ensures |ledger| == |old(ledger)| + if counted then 1 else 0
    {
      counted := false;
      if people[i].status == Left {
        people := Without(people, i);
      } else if |people[i].trajectory| >= TRAJECTORY_LENGTH {
        counted := CheckTrajectory(i);
        var p := people[i];
        people := people[i := p.(trajectory := p.trajectory[|p.trajectory| - 1..])];
      } else if frameN - LastKey(people[i]) - 5 >= DETECTION_DELAY {
        counted := CheckTrajectory(i);
        people := people[i := people[i].(status := Left)];
        people := Without(people, i);
      } else if |people| > 2 {
        counted := CheckTrajectory(i);
        if counted {
          people := people[i := people[i].(status := Left)];
          people := Without(people, i);
        }
      }
    }

    /** `update_people_status`; the result says whether somebody was counted. */
    method UpdatePeopleStatus(frameN: nat) returns (save: bool)
      requires Valid()
      modifies this
      ensures Valid() && Abs() == UpdateStatus(old(Abs()), |old(people)|, frameN)
      ensures save <==> |old(ledger)| < |ledger|
    {
      save := false;
      var i := |people| - 1;
      while 0 <= i
        invariant -1 <= i < |people| && Valid() && frames[..] == old(frames[..])
        invariant UpdateStatus(Abs(), i + 1, frameN) == UpdateStatus(old(Abs()), |old(people)|, frameN)
        invariant |old(ledger)| <= |ledger| && (save <==> |old(ledger)| < |ledger|)
      {
        var counted := UpdateStatusAt(i, frameN);
        save := save || counted;
        i := i - 1;
      }
    }

    /** `process_frame`, from the point where the bodies are known. */
    method ProcessFrame(frameN: nat, o: Observation)
      requires Valid()
      modifies this, frames
      ensures Valid() && Abs() == Step(old(Abs()), frameN, o)
    {
      frames[frameN % HISTORY_LENGTH] := Frame(frameN, o.side, true, o.bodies);
      assert Abs() == Store(old(Abs()), frameN, o);
      MatchBodyPerson(frameN);
      var _ := UpdatePeopleStatus(frameN);
    }
  }

  lemma PerformUpToTwo(st: State, actions: seq<Action>)
    requires |st.frames| == HISTORY_LENGTH && |actions| <= 2
    ensures actions == [] ==> Perform(st, actions) == st
    ensures |actions| == 1 ==> Perform(st, actions) == Act(st, actions[0])
    ensures |actions| == 2 ==> Perform(st, actions) == Act(Act(st, actions[0]), actions[1])
  {
    if |actions| == 2 {
      assert Perform(st, actions) == Perform(Act(st, actions[0]), actions[1..]);
    }
  }

  lemma SlotOfSum(index: int, offset: int)
    requires -HISTORY_LENGTH <= index + offset
    ensures (index + offset + HISTORY_LENGTH) % HISTORY_LENGTH == Slot(index + offset)
  {
  }

  lemma SlotOfShift(n: int, d: int)
    ensures Slot(Slot(n) + d) == Slot(n + d)
  {
  }
}
