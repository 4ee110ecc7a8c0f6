/** The terminal manager as an object that takes the machine's steps. */
module TerminalManager {
  import opened Terminals

  datatype Read = Chunk(bytes: seq<int>) | Eof | Failed

  /** What a reader thread does to the outside, in order. */
  datatype Effect = OnData(bytes: seq<int>) | OnExit | Reap(id: string)

  /** The chunks a reader forwards: those up to the first end of file or read error. */
  function Forwarded(input: seq<Read>): seq<Effect> {
    if input == [] || !input[0].Chunk? then [] else [OnData(input[0].bytes)] + Forwarded(input[1..])
  }

  /** Chunk by chunk, and none from the first end or error on. */
  lemma {:induction false} ForwardedIs(input: seq<Read>, n: nat)
    requires n < |input| && !input[n].Chunk? && forall k :: 0 <= k < n ==> input[k].Chunk?
    ensures |Forwarded(input)| == n && forall k :: 0 <= k < n ==> Forwarded(input)[k] == OnData(input[k].bytes)
  {
    if n > 0 {
      ForwardedIs(input[1..], n - 1);
    }
  }

  /**
   * The reader thread: chunks go out as they come, then one exit, then the
   * report. The input ends with an end of file or an error.
   */
  method RunReaderLoop(input: seq<Read>, id: string) returns (effects: seq<Effect>)
    requires exists k :: 0 <= k < |input| && !input[k].Chunk?
    ensures effects == Forwarded(input) + [OnExit, Reap(id)]
  {
    effects := [];
    assert input[0..] == input;
    var i := 0;
    while true
      invariant 0 <= i < |input| && exists k :: i <= k < |input| && !input[k].Chunk?
      invariant effects + Forwarded(input[i..]) == Forwarded(input)
      decreases |input| - i
    {
      assert input[i..][1..] == input[i + 1..];
      match input[i] {
        case Chunk(bytes) => effects := effects + [OnData(bytes)];
        case Eof => break;
        case Failed => break;
      }
      i := i + 1;
    }
    effects := effects + [OnExit];
    effects := effects + [Reap(id)];
  }

  function DrainAll(s: State, call: nat): State
    requires call !in s.drains
  {
    Do(Do(s, DrainTake(call, |s.channel|)), DrainRemove(call))
  }

  class Manager {
    var sessions: map<string, nat>
    var readers: seq<Reader>
    var channel: seq<string>
    ghost var drains: map<nat, seq<string>>
    ghost var killed: set<nat>
    ghost var outputs: seq<Output>

    ghost function View(): State
      reads this
    {
      State(sessions, readers, channel, drains, killed, outputs)
    }

    constructor ()
      ensures View() == START
    {
      sessions, readers, channel, drains, killed, outputs := map[], [], [], map[], {}, [];
    }

    /** Takes every reported id off the channel, then removes those sessions. */
    method DrainReaped(ghost call: nat)
      requires call !in drains
      modifies this
      ensures View() == DrainAll(old(View()), call)
    {
      var dead := channel;
      channel := [];
      assert dead == dead[..|dead|] && channel == dead[|dead|..];
      var before := sessions;
      for i := 0 to |dead|
        invariant sessions == before - (set id | id in dead[..i])
        invariant readers == old(readers) && channel == [] && drains == old(drains)
        invariant killed == old(killed) && outputs == old(outputs)
      {
        sessions := map id | id in sessions && id != dead[i] :: sessions[id];
        assert dead[..i + 1] == dead[..i] + [dead[i]];
      }
      assert dead[..|dead|] == dead;
      ghost var taken := Do(old(View()), DrainTake(call, |dead|));
      assert taken.drains[call] == dead;
      assert Dead(taken, call) == set id | id in dead;
      assert taken.drains - {call} == drains;
    }

    method Count(ghost call: nat) returns (n: nat)
      requires call !in drains
      modifies this
      ensures View() == DrainAll(old(View()), call) && n == |sessions|
    {
      DrainReaped(call);
      n := |sessions|;
    }

    /** Inserts the session before its reader starts; a bad directory or a failed spawn leaves only the drain. */
    method Spawn(id: string, spawns: bool, ghost call: nat) returns (ok: bool)
      requires call !in drains
      modifies this
      ensures ok == spawns
      ensures var s := DrainAll(old(View()), call);
              View() == if spawns then Do(Do(s, Insert(id)), StartReader(|s.readers|)) else s
    {
      DrainReaped(call);
      if !spawns {
        return false;
      }
      var r := |readers|;
      sessions := sessions[id := r];
      readers := readers + [Reader(id, NotStarted)];
      readers := readers[r := readers[r].(phase := Reading)];
      ok := true;
    }

    /** Succeeds exactly when the id is mapped after the drain, and the write and the flush go through. */
    method Write(id: string, writes: bool, ghost call: nat) returns (ok: bool)
      requires call !in drains
      modifies this
      ensures View() == DrainAll(old(View()), call) && (ok <==> id in sessions && writes)
    {
      DrainReaped(call);
      if id !in sessions {
        return false;
      }
      ok := writes;
    }

    method Kill(id: string)
      modifies this
      ensures View() == Do(old(View()), Terminals.Kill(id))
    {
      if id in sessions {
        killed := killed + {sessions[id]};
        sessions := map other | other in sessions && other != id :: sessions[other];
      }
    }

    method KillAll()
      modifies this
      ensures View() == Do(old(View()), Terminals.KillAll)
    {
      killed := killed + sessions.Values;
      sessions := map[];
    }
  }
}
