/** The six shapes side by side at the library defaults. */
module Gallery {
  import opened Outcome
  import opened AVConstants
  import opened Geometry
  import opened Sampling
  import Base = BaseVisualizer
  import Bar
  import Wave
  import Blob
  import Blast
  import HiFi
  import CircleLine
  import Ring

  /** At the default density every shape gets a quarter of its maximum,
      above every minimum, and the two angle-loop shapes get 60 points,
      which divides 360. With no buffer attached no sample is read, and
      both angle-loop frames draw. */
  lemma DefaultPointCounts(s: CircleLine.State, v: View, controlLen: int)
    ensures Bar.Init(Base.Defaults).n == 30
    ensures Wave.Init(Base.Defaults).n == 13
    ensures Blob.Init(Base.Defaults).n == 15
    ensures Blast.Init(Base.Defaults).n == 250
    ensures HiFi.Init(Base.Defaults, controlLen).p == 60
    ensures CircleLine.Init(Base.Defaults, s).p == 60
    ensures Ring.Step(60) == 6 && Ring.Iterations(6) == 60
    ensures HiFi.Draw(Base.Defaults, HiFi.Init(Base.Defaults, controlLen), v, controlLen).Ok?
    ensures CircleLine.Draw(Base.Defaults, CircleLine.Init(Base.Defaults, s)).Ok?
  {
    Ring.DividingVisitsEachSlot(60, 0);
    assert !Base.Active(Base.Defaults);
  }

  /** With a buffer of at least 1024 bytes attached to the defaults, the two
      angle-loop shapes read samples and still draw without a fault, and
      their 60 iterations visit every slot once: iteration k reads slot k. */
  lemma DefaultFramesWithAudio(buf: seq<SByte>, s: CircleLine.State, v: View, controlLen: int)
    requires |buf| >= Horizon
    ensures var cfg := Base.SetRawAudioBytes(Base.Defaults, Some(buf));
            && Base.Active(cfg)
            && HiFi.Draw(cfg, HiFi.Init(cfg, controlLen), v, controlLen).Ok?
            && CircleLine.Draw(cfg, CircleLine.Init(cfg, s)).Ok?
    ensures forall k :: 0 <= k < 60 ==> Ring.SlotAt(60, Ring.Step(60), k) == k
  {
    var cfg := Base.SetRawAudioBytes(Base.Defaults, Some(buf));
    assert HiFi.Init(cfg, controlLen).p == 60;
    assert CircleLine.Init(cfg, s).p == 60;
    forall k | 0 <= k < 60
      ensures Ring.SlotAt(60, Ring.Step(60), k) == k
    {
      Ring.DividingVisitsEachSlot(60, k);
    }
  }
}
