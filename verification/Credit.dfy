/** The two halves of the credit protocol: the publisher's window over submitted
    sequences, and the subscriber's reassembly of out-of-order releases into one
    cumulative acknowledgement. */
module Credit {
  import opened Base

  datatype CreditStatus = CreditOk | CreditMalformed

  /** The publisher's window: sequences `credited .. next` are outstanding. */
  datatype Window = Window(width: nat, next: nat, credited: nat) {
    ghost predicate Valid() {
      credited <= next <= MAX64 && next - credited <= width
    }

    function Outstanding(): nat
      requires credited <= next
    {
      next - credited
    }

    predicate CanSubmit()
      requires credited <= next
    {
      next - credited < width
    }

    function NoteSubmitted(): Window {
      this.(next := next + 1)
    }

    function ApplyCredit(ack: nat): (Window, CreditStatus, nat) {
      if ack >= next then (this, CreditMalformed, 0)
      else if ack + 1 <= credited then (this, CreditOk, 0)
      else (this.(credited := ack + 1), CreditOk, ack + 1 - credited)
    }
  }

  /** Apply a whole sequence of acknowledgements, adding up what they release. */
  function ApplyCredits(w: Window, acks: seq<nat>): (Window, nat)
    decreases |acks|
  {
    if acks == [] then (w, 0)
    else
      var (w1, _, n) := w.ApplyCredit(acks[0]);
      var (w2, m) := ApplyCredits(w1, acks[1..]);
      (w2, n + m)
  }

  /** Whether some acknowledgement in `acks` releases `s`: it is at or above `s`
      and names a submitted sequence. */
  ghost predicate Covers(acks: seq<nat>, next: nat, s: nat) {
    exists k :: 0 <= k < |acks| && s <= acks[k] < next
  }

  /** Credit is cumulative: after any acknowledgements, in any order and with any
      duplicates or forgeries among them, exactly the sequences some valid
      acknowledgement covers are credited, each once. */
  lemma {:induction false} CreditIsCumulative(w: Window, acks: seq<nat>)
    requires w.Valid()
    ensures var (w', released) := ApplyCredits(w, acks);
      && w'.Valid() && w'.next == w.next && w'.width == w.width
      && released == w'.credited - w.credited
      && forall s :: s >= w.credited ==> (s < w'.credited <==> Covers(acks, w.next, s))
    decreases |acks|
  {
    if acks != [] {
      var (w1, _, n) := w.ApplyCredit(acks[0]);
      CreditIsCumulative(w1, acks[1..]);
      var (w2, m) := ApplyCredits(w1, acks[1..]);
      forall s | s >= w.credited
        ensures s < w2.credited <==> Covers(acks, w.next, s)
      {
        if Covers(acks[1..], w.next, s) {
          var k :| 0 <= k < |acks[1..]| && s <= acks[1..][k] < w.next;
          assert acks[k + 1] == acks[1..][k];
        }
        if Covers(acks, w.next, s) && s >= w1.credited {
          var k :| 0 <= k < |acks| && s <= acks[k] < w.next;
          assert k > 0 && acks[k] == acks[1..][k - 1];
        }
      }
    }
  }

  /** The publisher-side window as the engine mutates it. */
  class CreditWindow {
    const ringDepth: u32
    const width: u32
    var nextSequence: nat
    var creditedEnd: nat

    ghost predicate Valid()
      reads this
    {
      State().Valid()
    }

    ghost function State(): Window
      reads this
    {
      Window(width, nextSequence, creditedEnd)
    }

    constructor (ringDepth: u32, width: u32)
      ensures Valid() && State() == Window(width, 0, 0) && this.ringDepth == ringDepth
    {
      this.ringDepth, this.width := ringDepth, width;
      nextSequence, creditedEnd := 0, 0;
    }

    method CanSubmit() returns (open: bool)
      requires Valid()
      ensures open == State().CanSubmit()
    {
      open := nextSequence - creditedEnd < width;
    }

    /** The caller has checked CanSubmit(); sequences never wrap. */
    method NoteSubmitted() returns (sequence: nat)
      requires Valid() && State().CanSubmit() && nextSequence < MAX64
      modifies this
      ensures Valid() && State() == old(State()).NoteSubmitted()
      ensures sequence == old(nextSequence)
    {
      sequence := nextSequence;
      nextSequence := nextSequence + 1;
    }

    method ApplyCredit(ack: u64) returns (status: CreditStatus, released: nat)
      requires Valid()
      modifies this
      ensures Valid() && (State(), status, released) == old(State()).ApplyCredit(ack)
    {
      if ack >= nextSequence {
        return CreditMalformed, 0;
      }
      var newEnd := ack + 1;
      if newEnd <= creditedEnd {
        return CreditOk, 0;
      }
      released := newEnd - creditedEnd;
      creditedEnd := newEnd;
      status := CreditOk;
    }

    method Reset(first: u64)
      requires Valid()
      modifies this
      ensures Valid() && State() == Window(width, first, first)
    {
      nextSequence, creditedEnd := first, first;
    }
  }

  datatype Release = Advanced | Recorded | Duplicate | OutOfWindow

  /** The subscriber's tracker as a value: everything in `start .. end` has been
      released, and so has `ahead`, which lies strictly above `end`. */
  datatype Tracker = Tracker(depth: nat, start: nat, end: nat, ahead: set<nat>,
                             lastAck: nat, ackSent: bool) {
    ghost predicate Valid() {
      && depth > 0
      && start <= end <= MAX64
      && end !in ahead
      && (forall s :: s in ahead ==> end < s < end + depth)
      && (ackSent ==> start <= lastAck < end)
    }

    ghost predicate Released(s: nat) {
      start <= s < end || s in ahead
    }

    /** Record one release, then swallow the contiguous prefix. */
    function Release(s: nat): (Tracker, Release)
      requires depth > 0 && end <= MAX64
    {
      if s < end then (this, Duplicate)
      else if end + depth > MAX64 || s >= end + depth then (this, OutOfWindow)
      else if s in ahead then (this, Duplicate)
      else
        var (end', ahead') := Swallow(end, ahead + {s});
        (this.(end := end', ahead := ahead'), if end' > end then Advanced else Recorded)
    }

    /** The acknowledgement to send, if it differs from the last one handed out. */
    function TakePendingAck(): (Tracker, Option<nat>)
      requires start <= end
    {
      if end == start then (this, None)
      else if ackSent && end - 1 == lastAck then (this, None)
      else (this.(lastAck := end - 1, ackSent := true), Some(end - 1))
    }

    function MarkAckFailed(): Tracker {
      this.(ackSent := false)
    }
  }

  function FreshTracker(depth: nat, first: nat): Tracker {
    Tracker(depth, first, first, {}, 0, false)
  }

  /** Move the end of the prefix past everything recorded contiguously. */
  function Swallow(end: nat, ahead: set<nat>): (r: (nat, set<nat>))
    ensures end <= r.0 && r.0 !in r.1 && r.1 <= ahead
    ensures forall s :: end <= s < r.0 ==> s in ahead
    ensures forall s :: s in ahead ==> s in r.1 || end <= s < r.0
    ensures forall s :: s in r.1 ==> s < end || s > r.0
    ensures r.0 > end <==> end in ahead
    decreases ahead
  {
    if end in ahead then Swallow(end + 1, ahead - {end}) else (end, ahead)
  }

  lemma ReleaseKeepsValid(t: Tracker, s: nat)
    requires t.Valid()
    ensures t.Release(s).0.Valid()
    ensures t.Release(s).0.depth == t.depth && t.Release(s).0.start == t.start
    ensures t.end <= t.Release(s).0.end
  {
    var (t', r) := t.Release(s);
    if t' != t {
      var (e, a) := Swallow(t.end, t.ahead + {s});
      if e > t.end {
        assert e - 1 in t.ahead + {s};
      }
    }
  }

  // ----- Refinement: the tracker is a set of released sequences -----

  /** The smallest number at or above `from` that is not in `released`. */
  function LeastMissing(from: nat, released: set<nat>): (m: nat)
    ensures m >= from && m !in released
    ensures forall s :: from <= s < m ==> s in released
    decreases released
  {
    if from in released then LeastMissing(from + 1, released - {from}) else from
  }

  /** What a release means when the only state is the set released so far. */
  function ClassifyBySet(depth: nat, first: nat, released: set<nat>, s: nat): Release {
    var least := LeastMissing(first, released);
    if s < least then Duplicate
    else if least + depth > MAX64 || s >= least + depth then OutOfWindow
    else if s in released then Duplicate
    else if s == least then Advanced
    else Recorded
  }

  /** The outcomes of a run of releases, with the tracker as the state. */
  function TrackerOutcomes(t: Tracker, rs: seq<nat>): (Tracker, seq<Release>)
    requires t.Valid()
    decreases |rs|
  {
    if rs == [] then (t, [])
    else
      ReleaseKeepsValid(t, rs[0]);
      var (t1, o) := t.Release(rs[0]);
      var (t2, os) := TrackerOutcomes(t1, rs[1..]);
      (t2, [o] + os)
  }

  /** The same run with a plain set as the state. */
  function SetOutcomes(depth: nat, first: nat, released: set<nat>, rs: seq<nat>): (set<nat>, seq<Release>)
    decreases |rs|
  {
    if rs == [] then (released, [])
    else
      var o := ClassifyBySet(depth, first, released, rs[0]);
      var released' := if o == Advanced || o == Recorded then released + {rs[0]} else released;
      var (r, os) := SetOutcomes(depth, first, released', rs[1..]);
      (r, [o] + os)
  }

  /** The tracker holds exactly `released`: its prefix ends at the least missing
      sequence and its bitmap is the rest. */
  ghost predicate Represents(t: Tracker, released: set<nat>) {
    && t.end == LeastMissing(t.start, released)
    && t.ahead == (set s | s in released && s > t.end)
    && (forall s :: s in released ==> s >= t.start)
  }

  lemma LeastMissingUnique(from: nat, released: set<nat>, m: nat)
    requires m >= from && m !in released
    requires forall s :: from <= s < m ==> s in released
    ensures m == LeastMissing(from, released)
  {
    var least := LeastMissing(from, released);
    assert !(m < least) && !(least < m);
  }

  lemma ReleaseRefinesSet(t: Tracker, released: set<nat>, s: nat)
    requires t.Valid() && Represents(t, released)
    ensures var (t', o) := t.Release(s);
      && o == ClassifyBySet(t.depth, t.start, released, s)
      && Represents(t', if o == Advanced || o == Recorded then released + {s} else released)
  {
    var (t', o) := t.Release(s);
    if o == Advanced || o == Recorded {
      var released' := released + {s};
      var (e, a) := Swallow(t.end, t.ahead + {s});
      forall x | t.start <= x < e
        ensures x in released'
      {
        if x >= t.end {
          assert x in t.ahead + {s};
        }
      }
      assert e in released' ==> e in t.ahead + {s};
      LeastMissingUnique(t.start, released', e);
      assert a == (set x | x in released' && x > e);
    }
  }

  /** For every sequence of releases, from any first sequence and up to the
      64-bit end, the bitmap tracker and the plain set answer alike, and the
      tracker's end is the least unreleased sequence of the epoch. */
  lemma {:induction false} TrackerRefinesSet(t: Tracker, released: set<nat>, rs: seq<nat>)
    requires t.Valid() && Represents(t, released)
    ensures TrackerOutcomes(t, rs).1 == SetOutcomes(t.depth, t.start, released, rs).1
    ensures TrackerOutcomes(t, rs).0.Valid()
    ensures TrackerOutcomes(t, rs).0.start == t.start && TrackerOutcomes(t, rs).0.depth == t.depth
    ensures Represents(TrackerOutcomes(t, rs).0, SetOutcomes(t.depth, t.start, released, rs).0)
    decreases |rs|
  {
    if rs != [] {
      ReleaseKeepsValid(t, rs[0]);
      ReleaseRefinesSet(t, released, rs[0]);
      var (t1, o) := t.Release(rs[0]);
      var released' := if o == Advanced || o == Recorded then released + {rs[0]} else released;
      TrackerRefinesSet(t1, released', rs[1..]);
    }
  }

  // ----- The tracker as the engine mutates it -----

  /** One 64-bit word of the bitmap, as its bits. */
  type Word = w: seq<bool> | |w| == 64 witness seq(64, i => false)

  const ZeroWord: Word := seq(64, i => false)

  function WordCount(ringDepth: u32): (n: nat)
    ensures ringDepth <= 64 * n < ringDepth + 64
  {
    (ringDepth + 63) / 64
  }

  /** Within one window, only `sequence` itself has the bit of `sequence`. */
  lemma SameBit(end: nat, depth: nat, sequence: nat)
    requires depth > 0 && end <= sequence < end + depth
    ensures forall s: nat :: end <= s < end + depth && s % depth == sequence % depth ==> s == sequence
  {
    forall s: nat | end <= s < end + depth && s % depth == sequence % depth
      ensures s == sequence
    {
      if s <= sequence {
        RingIndexUnique(s, sequence, depth);
      } else {
        RingIndexUnique(sequence, s, depth);
      }
    }
  }

  class ReleaseTracker {
    const ringDepth: u32
    const words: array<Word>
    var start: u64
    var releasedEnd: u64
    var heldAhead: nat
    var lastAckSent: nat
    var ackSent: bool

    predicate Bit(i: nat)
      reads words
      requires words.Length == WordCount(ringDepth) && i < ringDepth
    {
      words[i / 64][i % 64]
    }

    predicate Test(sequence: nat)
      reads words
      requires words.Length == WordCount(ringDepth) && ringDepth > 0
    {
      Bit(sequence % ringDepth)
    }

    /** The recorded sequences: one candidate per bit, in the current window. */
    ghost function Ahead(): set<nat>
      reads this`releasedEnd, words
      requires words.Length == WordCount(ringDepth) && ringDepth > 0
    {
      set s: nat | releasedEnd <= s < releasedEnd + ringDepth && Test(s)
    }

    ghost predicate Consistent()
      reads this, words
    {
      && ringDepth > 0
      && words.Length == WordCount(ringDepth)
      && start <= releasedEnd
      && heldAhead == |Ahead()|
      && (ackSent ==> start <= lastAckSent < releasedEnd)
    }

    ghost predicate Valid()
      reads this, words
    {
      Consistent() && !Test(releasedEnd)
    }

    ghost function State(): Tracker
      reads this, words
      requires ringDepth > 0 && words.Length == WordCount(ringDepth)
    {
      Tracker(ringDepth, start, releasedEnd, Ahead(), lastAckSent, ackSent)
    }

    lemma ValidState()
      requires Valid()
      ensures State().Valid()
    {
    }

    constructor (ringDepth: u32)
      requires ringDepth > 0
      ensures Valid() && fresh(words) && State() == FreshTracker(ringDepth, 0)
    {
      this.ringDepth := ringDepth;
      words := new Word[WordCount(ringDepth)](_ => ZeroWord);
      start, releasedEnd, heldAhead, lastAckSent, ackSent := 0, 0, 0, 0, false;
      new;
      assert Ahead() == {};
    }

    method Set(sequence: nat)
      requires words.Length == WordCount(ringDepth) && ringDepth > 0
      modifies words
      ensures forall i: nat :: i < ringDepth ==> Bit(i) == (old(Bit(i)) || i == sequence % ringDepth)
    {
      var bit := sequence % ringDepth;
      words[bit / 64] := words[bit / 64][bit % 64 := true];
    }

    method Clear(sequence: nat)
      requires words.Length == WordCount(ringDepth) && ringDepth > 0
      modifies words
      ensures forall i: nat :: i < ringDepth ==> Bit(i) == (old(Bit(i)) && i != sequence % ringDepth)
    {
      var bit := sequence % ringDepth;
      words[bit / 64] := words[bit / 64][bit % 64 := false];
    }

    /** Mark a sequence of the current window as released. */
    method Record(sequence: nat)
      requires Consistent() && !Test(sequence)
      requires releasedEnd <= sequence < releasedEnd + ringDepth
      modifies this`heldAhead, words
      ensures Consistent() && Ahead() == old(Ahead()) + {sequence}
    {
      Set(sequence);
      heldAhead := heldAhead + 1;
      SameBit(releasedEnd, ringDepth, sequence);
      assert Ahead() == old(Ahead()) + {sequence};
    }

    /** Move the prefix past one recorded sequence, freeing its bit. */
    method StepPrefix()
      requires Consistent() && Test(releasedEnd) && heldAhead > 0 && releasedEnd < MAX64
      modifies this`releasedEnd, this`heldAhead, words
      ensures Consistent() && releasedEnd == old(releasedEnd) + 1
      ensures old(releasedEnd) in old(Ahead()) && Ahead() == old(Ahead()) - {old(releasedEnd)}
      ensures heldAhead == old(heldAhead) - 1
    {
      Clear(releasedEnd);
      heldAhead := heldAhead - 1;
      releasedEnd := releasedEnd + 1;
      SameBit(old(releasedEnd), ringDepth, old(releasedEnd));
      RingIndexPeriod(old(releasedEnd), ringDepth);
      assert Ahead() == old(Ahead()) - {old(releasedEnd)};
    }

    /** The prefix-advancing loop: swallow everything recorded contiguously. */
    method AdvancePrefix()
      requires Consistent() && forall s :: s in Ahead() ==> s < MAX64
      modifies this`releasedEnd, this`heldAhead, words
      ensures Valid()
      ensures (releasedEnd, Ahead()) == old(Swallow(releasedEnd, Ahead()))
    {
      while heldAhead > 0 && Test(releasedEnd)
        invariant Consistent() && forall s :: s in Ahead() ==> s < MAX64
        invariant Swallow(releasedEnd, Ahead()) == old(Swallow(releasedEnd, Ahead()))
        decreases heldAhead
      {
        assert releasedEnd in Ahead();
        StepPrefix();
      }
      assert releasedEnd !in Ahead() by {
        if heldAhead == 0 {
          assert Ahead() == {};
        }
      }
    }

    /** Record one release and advance the contiguous prefix over the bitmap. */
    method Release(sequence: u64) returns (r: Release)
      requires Valid()
      modifies this`releasedEnd, this`heldAhead, words
      ensures Valid()
      ensures (State(), r) == old(State()).Release(sequence)
    {
      if sequence < releasedEnd {
        return Duplicate;
      }
      var windowEnd := CheckedAdd(releasedEnd, ringDepth);
      if windowEnd.None? || sequence >= windowEnd.value {
        return OutOfWindow;
      }
      assert Test(sequence) <==> sequence in Ahead();
      if Test(sequence) {
        return Duplicate;
      }
      var before := releasedEnd;
      Record(sequence);
      assert Ahead() == old(Ahead()) + {sequence};
      AdvancePrefix();
      r := if releasedEnd > before then Advanced else Recorded;
    }

    method TakePendingAck() returns (ack: Option<nat>)
      requires Valid()
      modifies this`lastAckSent, this`ackSent
      ensures Valid()
      ensures (State(), ack) == old(State()).TakePendingAck()
    {
      if releasedEnd == start {
        return None;
      }
      var candidate := releasedEnd - 1;
      if ackSent && candidate == lastAckSent {
        return None;
      }
      lastAckSent, ackSent := candidate, true;
      ack := Some(candidate);
    }

    method MarkAckFailed()
      requires Valid()
      modifies this`ackSent
      ensures Valid() && State() == old(State()).MarkAckFailed()
    {
      ackSent := false;
    }

    /** Restart the epoch at `first`, forgetting every recorded release. */
    method Reset(first: u64)
      requires Valid()
      modifies this, words
      ensures Valid() && State() == FreshTracker(ringDepth, first)
    {
      var i := 0;
      while i < words.Length
        invariant 0 <= i <= words.Length
        invariant forall j :: 0 <= j < i ==> words[j] == ZeroWord
      {
        words[i] := ZeroWord;
        i := i + 1;
      }
      start, releasedEnd, heldAhead, lastAckSent, ackSent := first, first, 0, 0, false;
      assert Ahead() == {};
    }
  }
}
