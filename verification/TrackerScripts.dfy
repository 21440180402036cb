/** What the ring holds while a given sequence of observations is processed, and which frames the glitch
    filter drops. */
module TrackerScripts {
  import opened Tracker
  import opened TrackerSafety

  /** Observations seen after frame `f0`, before which the scene was empty; `blip` is the one frame that is
      to be dropped, or 0. */
  datatype Script = Script(f0: nat, os: seq<Observation>, blip: nat)

  ghost predicate Seen(frames: seq<Frame>, g: int, bodies: seq<Body>)
    requires |frames| == HISTORY_LENGTH
  {
    frames[Slot(g)].number == g && frames[Slot(g)].bodies == bodies
  }

  /** The bodies of frame `g`, up to the end of the script. */
  function BodiesOf(s: Script, g: int): seq<Body>
    requires g <= s.f0 + |s.os|
  {
    if g <= s.f0 then [] else s.os[g - s.f0 - 1].bodies
  }

  /** A frame is to be dropped exactly if its number of bodies differs from that of the next one, while that
      of the frame before does not. */
  predicate Regular(s: Script, g: int)
    requires g < s.f0 + |s.os|
  {
    var before, now, after := |BodiesOf(s, g - 1)|, |BodiesOf(s, g)|, |BodiesOf(s, g + 1)|;
    if s.blip != 0 && g == s.blip then now != after && before == after
    else if s.blip != 0 && g == s.blip + 1 then now == after
    else now == after || before != after
  }

  ghost predicate Smooth(s: Script) {
    && (s.blip != 0 ==> s.f0 < s.blip)
    && forall g :: s.f0 - 4 <= g < s.f0 + |s.os| ==> Regular(s, g)
  }

  /** The seven most recent frames once frame `t` is processed. */
  ghost predicate Window(s: Script, frames: seq<Frame>, t: nat)
    requires t <= s.f0 + |s.os|
  {
    && Ring(frames, t)
    && (forall g :: 1 <= g && s.f0 - 4 <= g && t - 6 <= g <= t ==>
          Seen(frames, g, BodiesOf(s, g)) && (Valid(frames, g) || g == s.blip))
  }

  // ---------- which frames are used ----------

  lemma SlotShift(n: int, d: int)
    ensures Slot(Slot(n) + d) == Slot(n + d)
  {
  }

  /** The frame compared with frame `g` has as many bodies as frame `g - 1`. */
  lemma ComparedFrame(s: Script, frames: seq<Frame>, g: int, t: nat)
    requires t <= s.f0 + |s.os| && Window(s, frames, t)
    requires 1 <= g == t - 5 && s.f0 - 3 <= g && (s.blip != 0 ==> g != s.blip + 1)
    ensures |frames[Slot(Slot(g) + Back(frames, Slot(g), -1, 0))].bodies| == |BodiesOf(s, g - 1)|
  {
    if g == 1 {
      ComparedWithNothing(frames, t);
    } else {
      SlotShift(g, -1);
      assert Seen(frames, g - 1, BodiesOf(s, g - 1));
      assert Valid(frames, g - 1);
      BackIsOne(frames, Slot(g));
    }
  }

  lemma BackIsOne(frames: seq<Frame>, index: nat)
    requires |frames| == HISTORY_LENGTH && Valid(frames, index - 1)
    ensures Back(frames, index, -1, 0) == -1
  {
  }

  lemma ComparedWithNothing(frames: seq<Frame>, t: nat)
    requires Ring(frames, t) && t == 6
    ensures frames[Slot(Slot(1) + Back(frames, Slot(1), -1, 0))].bodies == []
  {
    BackFindsNearestValid(frames, 1, -1, 0);
    hide Back;
    var m := 1 + Back(frames, 1, -1, 0);
    assert -10 <= m <= 0;
    assert frames[Slot(m)] == EmptyFrame;
  }

  /** Frame `g` is dropped exactly if it is the one to be dropped. */
  lemma OnlyTheBlipIsDropped(s: Script, frames: seq<Frame>, g: int, t: nat)
    requires Smooth(s) && s.f0 < t <= s.f0 + |s.os| && Window(s, frames, t)
    requires 1 <= g == t - 5
    ensures Valid(frames, g) ==> (Glitch(frames, Slot(g)) <==> g == s.blip)
  {
    hide Back;
    SlotShift(g, 1);
    assert Seen(frames, g, BodiesOf(s, g));
    assert Seen(frames, g + 1, BodiesOf(s, g + 1));
    assert Regular(s, g);
    if s.f0 - 3 <= g && (s.blip != 0 ==> g != s.blip + 1) {
      ComparedFrame(s, frames, g, t);
    }
  }

  lemma StoreKeepsWindow(s: Script, st: State, k: nat)
    requires 1 <= k <= |s.os|
    requires |st.frames| == HISTORY_LENGTH && Window(s, st.frames, s.f0 + k - 1)
    ensures Window(s, Store(st, s.f0 + k, s.os[k - 1]).frames, s.f0 + k)
  {
    var t := s.f0 + k;
    var frames := Store(st, t, s.os[k - 1]).frames;
    StoreKeepsRing(st, t, s.os[k - 1]);
    forall g | 1 <= g && s.f0 - 4 <= g && t - 6 <= g <= t
      ensures Seen(frames, g, BodiesOf(s, g)) && (Valid(frames, g) || g == s.blip)
    {
      if g < t {
        SlotsDiffer(g, t);
        assert Seen(st.frames, g, BodiesOf(s, g));
      }
    }
  }

  lemma InvalidatingKeepsWindow(s: Script, frames: seq<Frame>, t: nat)
    requires t <= s.f0 + |s.os| && Window(s, frames, t) && 1 <= s.blip == t - 5
    ensures Window(s, frames[Slot(s.blip) := frames[Slot(s.blip)].(valid := false)], t)
  {
    var g := s.blip;
    var corrected := frames[Slot(g) := frames[Slot(g)].(valid := false)];
    forall h | 1 <= h && s.f0 - 4 <= h && t - 6 <= h <= t
      ensures Seen(corrected, h, BodiesOf(s, h)) && (Valid(corrected, h) || h == g)
    {
      assert Seen(frames, h, BodiesOf(s, h));
      if h < g { SlotsDiffer(h, g); } else if g < h { SlotsDiffer(g, h); }
    }
  }

  /** Correction keeps the window.  The frame looked at is the one five back, and it is let through unless
      it is the one to be dropped. */
  lemma CorrectionKeepsWindow(s: Script, frames: seq<Frame>, t: nat)
    requires Smooth(s) && s.f0 < t <= s.f0 + |s.os| && Window(s, frames, t)
    ensures var frame := frames[Slot(t - 5)];
            var (corrected, usable) := CorrectFrame(frames, frame);
            && Window(s, corrected, t)
            && (1 <= t - 5 ==> frame.number == t - 5 && frame.bodies == BodiesOf(s, t - 5))
            && (usable <==> 1 <= t - 5 && t - 5 != s.blip)
  {
    hide Glitch;
    var g := t - 5;
    var frame := frames[Slot(g)];
    if g < 1 {
      assert Ring(frames, t);
      assert frame == EmptyFrame;
    } else {
      assert Seen(frames, g, BodiesOf(s, g));
      assert frame.number == g;
      OnlyTheBlipIsDropped(s, frames, g, t);
      if g == s.blip {
        InvalidatingKeepsWindow(s, frames, t);
      }
    }
  }

  /** The verdict on any frame: it is used if it is valid, unless the next frame has a different number of
      bodies and the frame compared has not; that is the nearest earlier valid frame, or the eleventh back. */
  lemma Verdict(frames: seq<Frame>, frame: Frame) returns (m: int)
    requires |frames| == HISTORY_LENGTH
    ensures var n, (corrected, usable) := Slot(frame.number), CorrectFrame(frames, frame);
            && n - 11 <= m < n && (forall k :: m < k < n ==> !Valid(frames, k)) && (Valid(frames, m) || m == n - 11)
            && (usable <==> Valid(frames, n)
                            && (|frames[n].bodies| == |frames[Slot(n + 1)].bodies|
                                || |frames[Slot(m)].bodies| != |frames[Slot(n + 1)].bodies|))
            && corrected == if Valid(frames, n) && !usable then frames[n := frames[n].(valid := false)] else frames
  {
    var n := Slot(frame.number);
    BackFindsNearestValid(frames, n, -1, 0);
    m := n + Back(frames, n, -1, 0);
    hide Back;
  }
}
