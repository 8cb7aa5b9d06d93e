/** The report of Data Secure sequence numbers that did not increase. */
module SequenceCheck {

  /** A sender and the key it used. */
  datatype Who = Who(sender: string, key: string)

  /** A frame counts when it is an S-A_Data frame, no echo and no link-layer repeat. */
  datatype Frame = Counted(who: Who, seqNo: int) | Skipped

  /** An earlier counted frame of the same sender and key had this number or a higher one. */
  ghost predicate NotIncreased(frames: seq<Frame>, i: nat)
    requires i < |frames|
  {
    && frames[i].Counted?
    && exists j ::
         0 <= j < i && frames[j].Counted? && frames[j].who == frames[i].who && frames[j].seqNo >= frames[i].seqNo
  }

  /** What the table holds: the highest number of each sender and key so far. */
  ghost predicate Highest(last: map<Who, int>, frames: seq<Frame>, n: nat)
    requires n <= |frames|
  {
    && (forall j :: 0 <= j < n && frames[j].Counted? ==>
          frames[j].who in last && frames[j].seqNo <= last[frames[j].who])
    && (forall w :: w in last ==>
          exists j :: 0 <= j < n && frames[j].Counted? && frames[j].who == w && frames[j].seqNo == last[w])
  }

  /** A frame is reported exactly when its number did not rise above every earlier one of its sender and key. */
  method SequenceProblems(frames: seq<Frame>) returns (out: seq<nat>)
    ensures forall i: nat :: i in out <==> i < |frames| && NotIncreased(frames, i)
    ensures forall k, m :: 0 <= k < m < |out| ==> out[k] < out[m]
  {
    out := [];
    var last: map<Who, int> := map[];
    for i := 0 to |frames|
      invariant Highest(last, frames, i)
      invariant forall k: nat :: k in out <==> k < i && NotIncreased(frames, k)
      invariant forall k, m :: 0 <= k < m < |out| ==> out[k] < out[m]
    {
      match frames[i] {
        case Skipped =>
        case Counted(who, seqNo) =>
          var known := who in last;
          if known && seqNo <= last[who] {
            assert NotIncreased(frames, i);
            assert forall k :: 0 <= k < |out| ==> out[k] in out;
            out := out + [i];
          }
          if !known || seqNo > last[who] {
            last := last[who := seqNo];
          }
      }
    }
  }

  /** Nothing is reported exactly when the numbers of every sender and key strictly increase. */
  lemma NothingReported(frames: seq<Frame>, out: seq<nat>)
    requires forall i: nat :: i in out <==> i < |frames| && NotIncreased(frames, i)
    ensures out == [] <==>
      forall j, i ::
        0 <= j < i < |frames| && frames[j].Counted? && frames[i].Counted? && frames[j].who == frames[i].who ==>
      frames[j].seqNo < frames[i].seqNo
  {
    if out != [] {
      assert out[0] in out;
      assert NotIncreased(frames, out[0]);
    } else {
      forall j, i | 0 <= j < i < |frames| && frames[j].Counted? && frames[i].Counted? && frames[j].who == frames[i].who
        ensures frames[j].seqNo < frames[i].seqNo
      {
        assert !NotIncreased(frames, i);
      }
    }
  }
}
