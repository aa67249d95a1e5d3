/**
 `KeyedMutex.run` as the three stretches of synchronous code between its awaits: from the call to
 `await previous`, from there to the awaited operation, and the `finally` block.  The stretches of
 different calls interleave in any order that the promises allow.
 */
module KeyedMutex {
  import opened Options

  type Key = string
  type Ticket = nat

  datatype Phase = Waiting | Running | Finished

  // One activation of `run`: its ticket stands for the promise `current`, resolved once it is finished.
  datatype Call = Call(key: Key, previous: Option<Ticket>, phase: Phase)

  // All calls of one key in call order, and those whose operation was started, in that order; `done` have finished.
  datatype Line = Line(called: seq<Ticket>, started: seq<Ticket>, done: nat, running: bool)

  const NO_CALLS := Line([], [], 0, false)

  function Joined(line: Line, t: Ticket): Line {
    line.(called := line.called + [t])
  }

  function Started(line: Line, t: Ticket): Line {
    line.(started := line.started + [t], running := true)
  }

  function Ended(line: Line): Line {
    line.(done := line.done + 1, running := false)
  }

  function LineAt(lines: map<Key, Line>, key: Key): Line {
    if key in lines then lines[key] else NO_CALLS
  }

  predicate LineOk(line: Line) {
    && line.done <= |line.called| && (line.running ==> line.done < |line.called|)
    && line.started <= line.called && |line.started| == (if line.running then line.done + 1 else line.done)
    && forall i, j | 0 <= i < j < |line.called| :: line.called[i] != line.called[j]
  }

  /** The phase of the call at a position of its line, and the promise it awaits. */
  predicate CallOk(line: Line, calls: map<Ticket, Call>, key: Key, i: nat)
    requires i < |line.called|
  {
    var t := line.called[i];
    && t in calls && calls[t].key == key
    && calls[t].phase
       == (if i < line.done then Finished else if i == line.done && line.running then Running else Waiting)
    && (i > line.done ==> calls[t].previous == Some(line.called[i - 1]))
    && (i == line.done ==> calls[t].previous.None? || (i > 0 && calls[t].previous == Some(line.called[i - 1])))
  }

  predicate CallsOk(line: Line, calls: map<Ticket, Call>, key: Key) {
    LineOk(line) && forall i | 0 <= i < |line.called| :: CallOk(line, calls, key, i)
  }

  /** The map entry of a key: the last caller, while anyone is left. */
  predicate TailOk(line: Line, tails: map<Key, Ticket>, key: Key) {
    && (key in tails <==> line.done < |line.called|)
    && (key in tails ==> line.called != [] && tails[key] == line.called[|line.called| - 1])
  }

  /** Every call stands in the line of its key, once. */
  ghost predicate Consistent(lines: map<Key, Line>, calls: map<Ticket, Call>, tails: map<Key, Ticket>) {
    && (forall key :: CallsOk(LineAt(lines, key), calls, key) && TailOk(LineAt(lines, key), tails, key))
    && (forall t | t in calls :: t in LineAt(lines, calls[t].key).called)
  }

  lemma Place(lines: map<Key, Line>, calls: map<Ticket, Call>, tails: map<Key, Ticket>, t: Ticket) returns (i: nat)
    requires Consistent(lines, calls, tails) && t in calls
    ensures var line := LineAt(lines, calls[t].key);
            i < |line.called| && line.called[i] == t && CallOk(line, calls, calls[t].key, i)
  {
    var line := LineAt(lines, calls[t].key);
    assert CallsOk(line, calls, calls[t].key);
    i :| 0 <= i < |line.called| && line.called[i] == t;
  }

  /** A promise that `await` may pass. */
  predicate Resolved(calls: map<Ticket, Call>, previous: Option<Ticket>) {
    previous.None? || (previous.value in calls && calls[previous.value].phase.Finished?)
  }

  /** Only the first unfinished call of a line awaits a resolved promise, and only while none runs. */
  lemma OnlyHeadIsReady(lines: map<Key, Line>, calls: map<Ticket, Call>, tails: map<Key, Ticket>, t: Ticket)
    requires Consistent(lines, calls, tails) && t in calls
    requires calls[t].phase.Running? || (calls[t].phase.Waiting? && Resolved(calls, calls[t].previous))
    ensures var line := LineAt(lines, calls[t].key);
            && line.done < |line.called| && line.called[line.done] == t && (line.running <==> calls[t].phase.Running?)
            && CallsOk(line, calls, calls[t].key)
  {
    var i := Place(lines, calls, tails, t);
    var line := LineAt(lines, calls[t].key);
    assert CallsOk(line, calls, calls[t].key);
    assert i == 0 || CallOk(line, calls, calls[t].key, i - 1);
  }

  /** Changing one call and its own line leaves the lines of the other keys as they are. */
  lemma OthersKeep(lines: map<Key, Line>, calls: map<Ticket, Call>, tails: map<Key, Ticket>, t: Ticket, call: Call,
                   key: Key)
    requires Consistent(lines, calls, tails) && key != call.key && (t in calls ==> calls[t].key == call.key)
    ensures CallsOk(LineAt(lines, key), calls[t := call], key)
  {
    var line := LineAt(lines, key);
    var after := calls[t := call];
    assert CallsOk(line, calls, key);
    forall i: nat | i < |line.called| ensures CallOk(line, after, key, i) { assert CallOk(line, calls, key, i); }
  }

  lemma OwnLineKeeps(line: Line, line': Line, calls: map<Ticket, Call>, t: Ticket, call: Call)
    requires CallsOk(line, calls, call.key) && line.done < |line.called| && line.called[line.done] == t && t in calls
    requires (!line.running && line' == Started(line, t) && call == calls[t].(phase := Running))
          || (line.running && line' == Ended(line) && call == calls[t].(phase := Finished))
    ensures CallsOk(line', calls[t := call], call.key)
  {
    var after := calls[t := call];
    forall i: nat | i < |line'.called| ensures CallOk(line', after, call.key, i) {
      assert CallOk(line, calls, call.key, i);
    }
  }

  lemma JoinedLineKeeps(line: Line, calls: map<Ticket, Call>, tails: map<Key, Ticket>, t: Ticket, call: Call)
    requires CallsOk(line, calls, call.key) && TailOk(line, tails, call.key) && t !in calls
    requires call == Call(call.key, if call.key in tails then Some(tails[call.key]) else None, Waiting)
    ensures CallsOk(Joined(line, t), calls[t := call], call.key)
            && TailOk(Joined(line, t), tails[call.key := t], call.key)
  {
    var grown, calls' := Joined(line, t), calls[t := call];
    forall i | 0 <= i < |line.called| ensures line.called[i] != t { assert CallOk(line, calls, call.key, i); }
    forall i: nat | i < |grown.called| ensures CallOk(grown, calls', call.key, i) {
      if i < |line.called| { assert CallOk(line, calls, call.key, i) && grown.called[i] == line.called[i]; }
    }
  }

  lemma EnterKeeps(lines: map<Key, Line>, calls: map<Ticket, Call>, tails: map<Key, Ticket>, key: Key, t: Ticket)
    requires Consistent(lines, calls, tails) && t !in calls
    ensures var previous := if key in tails then Some(tails[key]) else None;
            Consistent(lines[key := Joined(LineAt(lines, key), t)], calls[t := Call(key, previous, Waiting)],
                       tails[key := t])
  {
    var line := LineAt(lines, key);
    var call := Call(key, if key in tails then Some(tails[key]) else None, Waiting);
    assert CallsOk(line, calls, key) && TailOk(line, tails, key);
    var calls', lines', tails' := calls[t := call], lines[key := Joined(line, t)], tails[key := t];
    JoinedLineKeeps(line, calls, tails, t, call);
    forall other ensures CallsOk(LineAt(lines', other), calls', other) && TailOk(LineAt(lines', other), tails', other) {
      if other != key {
        OthersKeep(lines, calls, tails, t, call, other);
        assert TailOk(LineAt(lines, other), tails, other);
      }
    }
    forall u | u in calls' ensures u in LineAt(lines', calls'[u].key).called {
      if u == t { assert Joined(line, t).called[|line.called|] == t; }
      else { assert u in LineAt(lines, calls[u].key).called; }
    }
  }

  /** Starting or finishing the first unfinished call keeps the lines. */
  lemma AdvanceKeeps(lines: map<Key, Line>, calls: map<Ticket, Call>, tails: map<Key, Ticket>, t: Ticket,
                          call: Call, line': Line, tails': map<Key, Ticket>)
    requires Consistent(lines, calls, tails) && t in calls && call.key == calls[t].key
    requires var line := LineAt(lines, call.key);
             && line.done < |line.called| && line.called[line.done] == t
             && ((!line.running && line' == Started(line, t) && call == calls[t].(phase := Running) && tails' == tails)
                 || (line.running && line' == Ended(line) && call == calls[t].(phase := Finished)
                     && tails' == if tails[call.key] == t then tails - {call.key} else tails))
    ensures Consistent(lines[call.key := line'], calls[t := call], tails')
  {
    var key, line := call.key, LineAt(lines, call.key);
    assert CallsOk(line, calls, key) && TailOk(line, tails, key);
    var calls', lines' := calls[t := call], lines[key := line'];
    OwnLineKeeps(line, line', calls, t, call);
    forall other ensures CallsOk(LineAt(lines', other), calls', other) && TailOk(LineAt(lines', other), tails', other) {
      if other != key {
        OthersKeep(lines, calls, tails, t, call, other);
        assert TailOk(LineAt(lines, other), tails, other);
      }
    }
    forall u | u in calls' ensures u in LineAt(lines', calls'[u].key).called {
      assert u in LineAt(lines, calls[u].key).called;
    }
  }

  class KeyedMutex {
    var tails: map<Key, Ticket>
    var calls: map<Ticket, Call>
    ghost var lines: map<Key, Line>

    ghost predicate Valid()
      reads this
    {
      Consistent(lines, calls, tails)
    }

    constructor ()
      ensures Valid() && lines == map[] && tails == map[]
    {
      tails := map[];
      calls := map[];
      lines := map[];
    }

    /** The call up to its first await: it joins the end of its key's line. */
    method Enter(key: Key, ticket: Ticket)
      requires Valid() && ticket !in calls
      modifies this
      ensures Valid() && tails == old(tails)[key := ticket]
      ensures var line := old(LineAt(lines, key)); lines == old(lines)[key := Joined(line, ticket)]
    {
      EnterKeeps(lines, calls, tails, key, ticket);
      var previous := if key in tails then Some(tails[key]) else None;
      tails := tails[key := ticket];
      calls := calls[ticket := Call(key, previous, Waiting)];
      lines := lines[key := Joined(LineAt(lines, key), ticket)];
    }

    /** The await returns and the operation starts: always the first unfinished call of the line,
        and never while another operation of the key runs. */
    method Begin(ticket: Ticket)
      requires Valid() && ticket in calls && calls[ticket].phase.Waiting? && Resolved(calls, calls[ticket].previous)
      modifies this`calls, this`lines
      ensures Valid()
      ensures var key := old(calls)[ticket].key; var line := old(LineAt(lines, key));
              && line.done < |line.called| && line.called[line.done] == ticket && !line.running
              && lines == old(lines)[key := Started(line, ticket)]
    {
      ghost var key := calls[ticket].key;
      ghost var line := LineAt(lines, key);
      OnlyHeadIsReady(lines, calls, tails, ticket);
      AdvanceKeeps(lines, calls, tails, ticket, calls[ticket].(phase := Running), Started(line, ticket), tails);
      calls := calls[ticket := calls[ticket].(phase := Running)];
      lines := lines[key := Started(line, ticket)];
    }

    /** The finally block, whether the operation was fulfilled or rejected: the promise is resolved,
        and the map entry goes exactly when no call of the key is left. */
    method Leave(ticket: Ticket)
      requires Valid() && ticket in calls && calls[ticket].phase.Running?
      modifies this
      ensures Valid()
      ensures var key := old(calls)[ticket].key; var line := old(LineAt(lines, key));
              && line.running && line.done < |line.called| && line.called[line.done] == ticket
              && lines == old(lines)[key := Ended(line)]
              && tails == if line.done + 1 == |line.called| then old(tails) - {key} else old(tails)
    {
      var key := calls[ticket].key;
      ghost var line := LineAt(lines, key);
      ghost var last := line.called[|line.called| - 1];
      OnlyHeadIsReady(lines, calls, tails, ticket);
      assert TailOk(line, tails, key);
      AdvanceKeeps(lines, calls, tails, ticket, calls[ticket].(phase := Finished), Ended(line),
                   if tails[key] == ticket then tails - {key} else tails);
      calls := calls[ticket := calls[ticket].(phase := Finished)];
      if key in tails && tails[key] == ticket { tails := tails - {key}; }
      lines := lines[key := Ended(line)];
    }
  }

  /** At most one operation of a key runs. */
  lemma OneOperationPerKey(lines: map<Key, Line>, calls: map<Ticket, Call>, tails: map<Key, Ticket>, t: Ticket,
                           u: Ticket)
    requires Consistent(lines, calls, tails) && t in calls && u in calls && calls[t].key == calls[u].key
    requires calls[t].phase.Running? && calls[u].phase.Running?
    ensures t == u
  {
    OnlyHeadIsReady(lines, calls, tails, t);
    OnlyHeadIsReady(lines, calls, tails, u);
  }

  /** The operations of a key start in the order of the calls: what was started is what was called first. */
  lemma StartsInCallOrder(lines: map<Key, Line>, calls: map<Ticket, Call>, tails: map<Key, Ticket>, key: Key)
    requires Consistent(lines, calls, tails)
    ensures var line := LineAt(lines, key);
            && line.started <= line.called
            && forall t :: t in line.started <==> t in calls && calls[t].key == key && !calls[t].phase.Waiting?
  {
    var line := LineAt(lines, key);
    assert CallsOk(line, calls, key);
    forall t ensures t in line.started <==> t in calls && calls[t].key == key && !calls[t].phase.Waiting? {
      if t in calls && calls[t].key == key {
        var i := Place(lines, calls, tails, t);
        StartedAt(line, i);
      } else if t in line.started {
        var i :| 0 <= i < |line.started| && line.started[i] == t;
        assert CallOk(line, calls, key, i);
      }
    }
  }

  lemma StartedAt(line: Line, i: nat)
    requires LineOk(line) && i < |line.called|
    ensures line.called[i] in line.started <==> i < line.done || (i == line.done && line.running)
  {
    if i < |line.started| { assert line.started[i] == line.called[i]; }
  }

  /** The map holds a key exactly while a call of it is outstanding, and then its last call. */
  lemma TailsAreOutstanding(lines: map<Key, Line>, calls: map<Ticket, Call>, tails: map<Key, Ticket>, key: Key)
    requires Consistent(lines, calls, tails)
    ensures key in tails <==> exists t :: t in calls && calls[t].key == key && !calls[t].phase.Finished?
    ensures key in tails ==> tails[key] in calls && calls[tails[key]].key == key && !calls[tails[key]].phase.Finished?
    ensures key in tails ==>
              LineAt(lines, key).called != []
              && tails[key] == LineAt(lines, key).called[|LineAt(lines, key).called| - 1]
  {
    var line := LineAt(lines, key);
    assert CallsOk(line, calls, key) && TailOk(line, tails, key);
    if key in tails { assert CallOk(line, calls, key, |line.called| - 1); }
    forall t | t in calls && calls[t].key == key && !calls[t].phase.Finished? ensures key in tails {
      var i := Place(lines, calls, tails, t);
    }
  }

  /** No call waits for ever: while a line is not exhausted, its first unfinished call runs or may start. */
  lemma HeadCanProceed(lines: map<Key, Line>, calls: map<Ticket, Call>, tails: map<Key, Ticket>, key: Key)
    requires Consistent(lines, calls, tails) && key in tails
    ensures var line := LineAt(lines, key);
            && line.done < |line.called| && line.called[line.done] in calls
            && var t := line.called[line.done];
            calls[t].phase.Running? || (calls[t].phase.Waiting? && Resolved(calls, calls[t].previous))
  {
    var line := LineAt(lines, key);
    assert CallsOk(line, calls, key) && TailOk(line, tails, key);
    assert CallOk(line, calls, key, line.done);
    if line.done > 0 { assert CallOk(line, calls, key, line.done - 1); }
  }
}
