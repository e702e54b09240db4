/** The batch-coalescing rule of the request ring, on the sequence of first
    bytes (command identifiers) of the pending request packets, oldest first.

    A host may split one batch of queued commands over several packets: every
    packet but the last starts with ID_DAP_QueueCommands, the last one does not.
    No packet of a batch is handed to the command executor before its last
    packet has arrived; then the queue markers in front of it are turned into
    ID_DAP_ExecuteCommands so that each packet can be executed on its own. */
module Batch {
  import opened DapTypes

  /** The number of leading packets that carry the queue marker. */
  function LeadingQueued(m: seq<Byte>): (n: nat)
    ensures n <= |m|
    ensures forall j :: 0 <= j < n ==> m[j] == ID_DAP_QueueCommands
    ensures n < |m| ==> m[n] != ID_DAP_QueueCommands
  {
    if |m| == 0 || m[0] != ID_DAP_QueueCommands then 0 else 1 + LeadingQueued(m[1..])
  }

  /** True when a packet that ends a batch (a packet without the queue marker)
      is pending. */
  predicate TerminalPresent(m: seq<Byte>)
  {
    LeadingQueued(m) < |m|
  }

  /** The markers after coalescing: the leading queue markers become execute
      markers. `None` when no terminal packet is pending (nothing may be delivered). */
  function Coalesce(m: seq<Byte>): (r: Option<seq<Byte>>)
    ensures r.None? <==> forall j :: 0 <= j < |m| ==> m[j] == ID_DAP_QueueCommands
    ensures r.Some? ==> |r.value| == |m|
    ensures r.Some? ==> forall j :: 0 <= j < |m| ==>
      r.value[j] == if j < LeadingQueued(m) then ID_DAP_ExecuteCommands else m[j]
  {
    if !TerminalPresent(m) then None
    else
      var n := LeadingQueued(m);
      Some(seq(|m|, j requires 0 <= j < |m| => if j < n then ID_DAP_ExecuteCommands else m[j]))
  }

  /** The pending markers once acquire has looked at them: coalesced when a
      batch is complete, untouched otherwise. */
  function AfterAcquire(m: seq<Byte>): seq<Byte>
  {
    match Coalesce(m)
    case None => m
    case Some(c) => c
  }

  /** Coalescing changes only the leading queue markers: every marker from the
      terminal packet on is kept, and no marker of the result is a queue marker
      up to and including the terminal packet. */
  lemma {:induction false} CoalesceKeepsTerminal(m: seq<Byte>)
    requires TerminalPresent(m)
    ensures var c := Coalesce(m).value;
      && c[LeadingQueued(m)] == m[LeadingQueued(m)] != ID_DAP_QueueCommands
      && c[LeadingQueued(m)..] == m[LeadingQueued(m)..]
      && LeadingQueued(c) == 0
  {
    var c := Coalesce(m).value;
    var n := LeadingQueued(m);
    assert c[n..] == m[n..] by {
      forall j | 0 <= j < |m| - n ensures c[n..][j] == m[n..][j] {
        assert c[n + j] == m[n + j];
      }
    }
    assert c[0] != ID_DAP_QueueCommands by {
      if n == 0 { assert c[0] == m[0]; } else { assert c[0] == ID_DAP_ExecuteCommands; }
    }
  }

  /** Acquiring twice is acquiring once: a second look at the coalesced
      markers finds the batch complete and changes nothing. */
  lemma CoalesceIdempotent(m: seq<Byte>)
    requires TerminalPresent(m)
    ensures Coalesce(Coalesce(m).value) == Coalesce(m)
  {
    var c := Coalesce(m).value;
    CoalesceKeepsTerminal(m);
    assert TerminalPresent(c);
    var c2 := Coalesce(c).value;
    assert c2 == c by {
      forall j | 0 <= j < |c| ensures c2[j] == c[j] { }
    }
  }

  /** Packets that arrive after a complete batch do not change how it is
      coalesced: the packets of the first batch get the same markers. */
  lemma {:induction false} CoalesceStableUnderArrival(m: seq<Byte>, later: seq<Byte>)
    requires TerminalPresent(m)
    ensures TerminalPresent(m + later)
    ensures LeadingQueued(m + later) == LeadingQueued(m)
    ensures Coalesce(m + later).value == Coalesce(m).value + later
  {
    var n := LeadingQueued(m);
    var ml := m + later;
    assert ml[n] == m[n];
    forall j | 0 <= j < n ensures ml[j] == ID_DAP_QueueCommands { assert ml[j] == m[j]; }
    assert LeadingQueued(ml) == n;
    var a, b := Coalesce(ml).value, Coalesce(m).value + later;
    assert |a| == |b|;
    forall j | 0 <= j < |a| ensures a[j] == b[j] {
      if j < |m| { assert ml[j] == m[j]; } else { assert ml[j] == later[j - |m|]; }
    }
  }

  /** Nothing is delivered while only queued packets are pending, however
      many have arrived; the first terminal packet makes the whole batch
      deliverable at once. */
  lemma {:induction false} BatchWaitsForTerminal(queued: nat, terminal: Byte)
    requires terminal != ID_DAP_QueueCommands
    ensures Coalesce(seq(queued, _ => ID_DAP_QueueCommands)).None?
    ensures var m := seq(queued, _ => ID_DAP_QueueCommands) + [terminal];
      Coalesce(m) == Some(seq(queued, _ => ID_DAP_ExecuteCommands) + [terminal])
  {
    var q := seq(queued, _ => ID_DAP_QueueCommands);
    var m := q + [terminal];
    assert m[queued] == terminal;
    assert forall j :: 0 <= j < queued ==> m[j] == ID_DAP_QueueCommands;
    assert LeadingQueued(m) == queued;
    var e := seq(queued, _ => ID_DAP_ExecuteCommands) + [terminal];
    assert Coalesce(m).value == e by {
      forall j | 0 <= j < |m| ensures Coalesce(m).value[j] == e[j] { }
    }
  }

  /** The worked example: packets marked Queue, Queue, Execute in that order
      read Execute, Execute, Execute after the first acquire. */
  lemma QueueQueueExecute(m: seq<Byte>)
    requires |m| == 3 && m[0] == ID_DAP_QueueCommands && m[1] == ID_DAP_QueueCommands
    requires m[2] == ID_DAP_ExecuteCommands
    ensures Coalesce(m) == Some([ID_DAP_ExecuteCommands, ID_DAP_ExecuteCommands, ID_DAP_ExecuteCommands])
    ensures AfterAcquire(m) == [ID_DAP_ExecuteCommands, ID_DAP_ExecuteCommands, ID_DAP_ExecuteCommands]
  {
    BatchWaitsForTerminal(2, ID_DAP_ExecuteCommands);
    assert m == seq(2, _ => ID_DAP_QueueCommands) + [ID_DAP_ExecuteCommands];
    assert seq(2, _ => ID_DAP_ExecuteCommands) + [ID_DAP_ExecuteCommands]
        == [ID_DAP_ExecuteCommands, ID_DAP_ExecuteCommands, ID_DAP_ExecuteCommands];
  }
}
