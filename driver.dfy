/** The program's driver: generate a reading, submit it, count the outcome,
    wait, repeat. The session runs until interrupted; here it runs over a
    finite list of rounds and the end of the list is the interrupt. */
module Driver {
  import opened Modes
  import opened Readings
  import opened Generator
  import opened Client

  /** What the environment supplies for one iteration: the random draw for the
      reading, and the outcomes its submission's requests will have. */
  datatype Round = Round(draw: Draw, transport: seq<Outcome>)

  function Draws(rounds: seq<Round>): (ds: seq<Draw>)
    ensures |ds| == |rounds|
    ensures forall i :: 0 <= i < |rounds| ==> ds[i] == rounds[i].draw
  {
    seq(|rounds|, i requires 0 <= i < |rounds| => rounds[i].draw)
  }

  /** The number of rounds whose reading is delivered within the attempts. */
  function DeliveredCount(rounds: seq<Round>): (n: nat)
    ensures n <= |rounds|
  {
    if rounds == [] then 0
    else
      var last := if Delivered(rounds[|rounds| - 1].transport, MaxRetries) then 1 else 0;
      DeliveredCount(rounds[..|rounds| - 1]) + last
  }

  /** One session: every round generates one reading and submits it; the
      session ends with as many readings as rounds, as many successes as
      delivered submissions, and the simulator's count advanced by the number
      of rounds. The readings are those of `Run` on the draws, so two sessions
      with the same scenario and the same draws produce the same readings. */
  method RunSession(sim: SensorSimulator, client: SupabaseClient, rounds: seq<Round>)
    returns (readingCount: nat, successCount: nat, ghost readings: seq<Reading>)
    requires sim.Valid()
    requires forall i :: 0 <= i < |rounds| ==> MaxRetries <= |rounds[i].transport|
    modifies sim
    ensures sim.count == old(sim.count) + |rounds|
    ensures readingCount == |rounds|
    ensures successCount == DeliveredCount(rounds) && successCount <= readingCount
    ensures readings == Run(sim.mode, sim.thresholds, old(sim.count), Draws(rounds))
  {
    readingCount, successCount, readings := 0, 0, [];
    ghost var start := sim.count;
    while readingCount < |rounds|
      invariant readingCount <= |rounds|
      invariant sim.count == start + readingCount
      invariant successCount == DeliveredCount(rounds[..readingCount])
      invariant successCount <= readingCount
      invariant readings == Run(sim.mode, sim.thresholds, start, Draws(rounds[..readingCount]))
    {
      var round := rounds[readingCount];
      readingCount := readingCount + 1;
      var data := sim.GenerateReading(round.draw);
      var success, log := client.SendReading(data, round.transport);
      if success {
        successCount := successCount + 1;
      }
      SessionStep(sim.mode, sim.thresholds, start, rounds, readingCount - 1, data, readings);
      readings := readings + [data];
    }
    assert rounds[..readingCount] == rounds;
  }

  /** What one more round adds to the session's readings and successes. */
  lemma SessionStep(mode: Mode, t: Thresholds, start: nat, rounds: seq<Round>, k: nat, data: Reading, before: seq<Reading>)
    requires mode == Random ==> IntRangesOrdered(t)
    requires k < |rounds|
    requires before == Run(mode, t, start, Draws(rounds[..k]))
    requires data == Generate(mode, start + k + 1, t, rounds[k].draw)
    ensures Run(mode, t, start, Draws(rounds[..k + 1])) == before + [data]
    ensures DeliveredCount(rounds[..k + 1]) ==
      DeliveredCount(rounds[..k]) + if Delivered(rounds[k].transport, MaxRetries) then 1 else 0
  {
    assert rounds[..k + 1][..k] == rounds[..k];
    assert Draws(rounds[..k + 1]) == Draws(rounds[..k]) + [rounds[k].draw];
    RunSnoc(mode, t, start, Draws(rounds[..k]), rounds[k].draw);
  }

  /** Extending a run by one draw appends the reading generated with the next
      count. */
  lemma {:induction false} RunSnoc(mode: Mode, t: Thresholds, start: nat, ds: seq<Draw>, d: Draw)
    requires mode == Random ==> IntRangesOrdered(t)
    ensures Run(mode, t, start, ds + [d]) == Run(mode, t, start, ds) + [Generate(mode, start + |ds| + 1, t, d)]
    decreases |ds|
  {
    if ds == [] {
      assert ds + [d] == [d];
      assert [d][1..] == [];
    } else {
      assert (ds + [d])[1..] == ds[1..] + [d];
      RunSnoc(mode, t, start + 1, ds[1..], d);
    }
  }
}
