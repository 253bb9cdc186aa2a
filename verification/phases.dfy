/** The status text shown while the transmission runs: one of six phases chosen
    from the cumulative percentage by fixed ascending thresholds, plus the status
    shown before the first step and the one shown after the last.

    The percentage is 100 * sent / total. It is never computed here: every
    threshold test is an exact integer comparison `100 * sent < b * total`. */
module PhaseLabels {

  datatype Phase = Handshake | Negotiating | Streaming | Transmitting | Flushing | Finalizing
  {
    /** Position of the phase in the order the thresholds impose. */
    function Rank(): nat
    {
      match this
      case Handshake => 0
      case Negotiating => 1
      case Streaming => 2
      case Transmitting => 3
      case Flushing => 4
      case Finalizing => 5
    }
  }

  /** The upper percent bounds of the first five phases, ascending. */
  const Thresholds: seq<nat> := [10, 25, 50, 75, 95]

  /** percent < bound, where percent = 100 * sent / total. */
  predicate Below(sent: nat, total: nat, bound: nat)
    requires total > 0
  {
    100 * sent < bound * total
  }

  /** The phase for `sent` bytes out of `total`: the first threshold the
      percentage is still below, or Finalizing past all of them. */
  function PhaseOf(sent: nat, total: nat): Phase
    requires total > 0
  {
    if Below(sent, total, 10) then Handshake
    else if Below(sent, total, 25) then Negotiating
    else if Below(sent, total, 50) then Streaming
    else if Below(sent, total, 75) then Transmitting
    else if Below(sent, total, 95) then Flushing
    else Finalizing
  }

  /** Reference definition: how many of the thresholds `ts` the percentage has reached. */
  function Reached(ts: seq<nat>, sent: nat, total: nat): nat
    requires total > 0
  {
    if |ts| == 0 then 0
    else (if Below(sent, total, ts[0]) then 0 else 1) + Reached(ts[1..], sent, total)
  }

  /** The threshold chain picks the phase whose rank is the number of thresholds reached. */
  lemma PhaseOfMatchesThresholds(sent: nat, total: nat)
    requires total > 0
    ensures PhaseOf(sent, total).Rank() == Reached(Thresholds, sent, total)
  {
    var bit := (b: nat) => if Below(sent, total, b) then 0 else 1;
    assert Thresholds[1..] == [25, 50, 75, 95];
    assert [25, 50, 75, 95][1..] == [50, 75, 95];
    assert [50, 75, 95][1..] == [75, 95];
    assert [75, 95][1..] == [95];
    assert [95][1..] == [];
    assert Reached([95], sent, total) == bit(95);
    assert Reached([75, 95], sent, total) == bit(75) + bit(95);
    assert Reached([50, 75, 95], sent, total) == bit(50) + bit(75) + bit(95);
    assert Reached([25, 50, 75, 95], sent, total) == bit(25) + bit(50) + bit(75) + bit(95);
    assert Reached(Thresholds, sent, total) == bit(10) + bit(25) + bit(50) + bit(75) + bit(95);
  }

  /** The chosen phase is the one whose percent interval holds the percentage:
      at least the threshold below its rank, and below the threshold at its rank. */
  lemma PhaseOfInterval(sent: nat, total: nat)
    requires total > 0
    ensures var r := PhaseOf(sent, total).Rank();
      && r <= |Thresholds|
      && (r == 0 || !Below(sent, total, Thresholds[r - 1]))
      && (r == |Thresholds| || Below(sent, total, Thresholds[r]))
  {
  }

  /** Sending more never un-reaches a threshold. */
  lemma {:induction false} ReachedMonotone(ts: seq<nat>, a: nat, b: nat, total: nat)
    requires total > 0 && a <= b
    ensures Reached(ts, a, total) <= Reached(ts, b, total)
  {
    if |ts| > 0 {
      ReachedMonotone(ts[1..], a, b, total);
    }
  }

  /** The phase never moves back to an earlier one as the sent count grows. */
  lemma PhaseMonotone(a: nat, b: nat, total: nat)
    requires total > 0 && a <= b
    ensures PhaseOf(a, total).Rank() <= PhaseOf(b, total).Rank()
  {
    PhaseOfMatchesThresholds(a, total);
    PhaseOfMatchesThresholds(b, total);
    ReachedMonotone(Thresholds, a, b, total);
  }

  /** The status text of a phase; the two middle phases name the active file. */
  function Describe(p: Phase, fileName: string): string
  {
    match p
    case Handshake => "Performing handshake..."
    case Negotiating => "Negotiating channel parameters..."
    case Streaming => "Streaming: " + fileName
    case Transmitting => "Transmitting payload: " + fileName
    case Flushing => "Flushing buffers..."
    case Finalizing => "Finalizing transmission..."
  }

  /** The status text identifies its phase, whatever the file names are, so the
      sequence of texts shown follows the sequence of phases. */
  lemma DescribeDeterminesPhase(p: Phase, q: Phase, f: string, g: string)
    requires Describe(p, f) == Describe(q, g)
    ensures p == q
  {
    var s, t := Describe(p, f), Describe(q, g);
    assert s[0] == t[0] && s[1] == t[1];
  }

  /** What the progress task describes at some moment: the channel being set up
      before any step, the phase of the latest step with its active file, or the
      completed transmission after the loop. */
  datatype Status = Establishing | Working(phase: Phase, fileName: string) | Completed

  /** The description text of a status. */
  function Text(st: Status): string
  {
    match st
    case Establishing => "Establishing virtual channel..."
    case Working(p, f) => Describe(p, f)
    case Completed => "Transmission completed!"
  }

  /** The description text identifies the status, up to the file name: the
      initial and the final text are not any phase's text, and two phase texts
      are equal only for the same phase. */
  lemma TextDeterminesStatus(a: Status, b: Status)
    requires Text(a) == Text(b)
    ensures a.Establishing? <==> b.Establishing?
    ensures a.Completed? <==> b.Completed?
    ensures a.Working? && b.Working? ==> a.phase == b.phase
  {
    var s, t := Text(a), Text(b);
    assert s[0] == t[0] && s[1] == t[1] && s[7] == t[7];
    if a.Working? && b.Working? {
      DescribeDeterminesPhase(a.phase, b.phase, a.fileName, b.fileName);
    }
  }
}
