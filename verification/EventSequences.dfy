/** Two acceptors over recorded events: the play/pause exchange list, and the load, play, pause search. */
module EventSequences {
  import opened Wrappers

  // ----- play/pause exchanges -----

  /** A recorded exchange; `NotAnObject` stands for any value that is not an object. */
  datatype Row = NotAnObject | Exchange(action: string, kind: string, paused: Option<bool>, payload: string)

  datatype Action = Action(name: string, paused: bool)

  /** The checks of one exchange's request and echo, beyond its action, kind and pause level. */
  type Payload = (string, string, bool) -> bool

  predicate ValidExchange(row: Row, action: string, paused: bool, kind: string, sound: Payload) {
    row.Exchange? && row.action == action && row.kind == kind && row.paused == Some(paused) && sound(row.payload, kind, paused)
  }

  predicate IsSeek(row: Row) {
    row.Exchange? && row.kind == "seek"
  }

  predicate ValidSeek(row: Row, action: Action, sound: Payload) {
    IsSeek(row) && row.paused.Some? && ValidExchange(row, action.name, row.paused.value, "seek", sound)
  }

  predicate ValidPause(row: Row, action: Action, sound: Payload) {
    !IsSeek(row) && ValidExchange(row, action.name, action.paused, "pause", sound)
  }

  /** The rows left after one action's seeks and its pause, or nothing. */
  function TakeAction(rows: seq<Row>, action: Action, sound: Payload): (left: Option<seq<Row>>)
    ensures left.Some? ==> |left.value| < |rows|
  {
    if rows == [] then None
    else if IsSeek(rows[0]) then
      if ValidSeek(rows[0], action, sound) then TakeAction(rows[1..], action, sound) else None
    else if ValidPause(rows[0], action, sound) then Some(rows[1..])
    else None
  }

  predicate AcceptFrom(rows: seq<Row>, actions: seq<Action>, sound: Payload)
    decreases |actions|
  {
    if actions == [] then rows == []
    else
      var left := TakeAction(rows, actions[0], sound);
      left.Some? && AcceptFrom(left.value, actions[1..], sound)
  }

  method AcceptExchanges(rows: seq<Row>, actions: seq<Action>, sound: Payload) returns (accepted: bool)
    ensures accepted == AcceptFrom(rows, actions, sound)
  {
    var exchangeIndex := 0;
    assert rows[0..] == rows;
    for a := 0 to |actions|
      invariant 0 <= exchangeIndex <= |rows|
      invariant AcceptFrom(rows, actions, sound) == AcceptFrom(rows[exchangeIndex..], actions[a..], sound)
    {
      var action := actions[a];
      assert actions[a..][1..] == actions[a + 1..];
      var completed := false;
      ghost var start := exchangeIndex;
      while exchangeIndex < |rows| && !completed
        invariant start <= exchangeIndex <= |rows|
        invariant TakeAction(rows[start..], action, sound)
               == if completed then Some(rows[exchangeIndex..]) else TakeAction(rows[exchangeIndex..], action, sound)
        decreases |rows| - exchangeIndex
      {
        assert rows[exchangeIndex..][1..] == rows[exchangeIndex + 1..];
        var row := rows[exchangeIndex];
        exchangeIndex := exchangeIndex + 1;
        if !row.Exchange? { return false; }
        if row.kind == "seek" {
          if row.paused.None? || !ValidExchange(row, action.name, row.paused.value, "seek", sound) { return false; }
          continue;
        }
        if !ValidExchange(row, action.name, action.paused, "pause", sound) { return false; }
        completed := true;
      }
      if !completed { return false; }
    }
    accepted := exchangeIndex == |rows|;
  }

  /** A sound exchange of this kind and pause level for the action. */
  predicate IsExchange(row: Row, action: Action, kind: string, paused: bool, sound: Payload) {
    row.Exchange? && row == Exchange(action.name, kind, Some(paused), row.payload) && sound(row.payload, kind, paused)
  }

  lemma SeekIsExchange(row: Row, action: Action, sound: Payload)
    ensures ValidSeek(row, action, sound) <==>
            IsExchange(row, action, "seek", true, sound) || IsExchange(row, action, "seek", false, sound)
    ensures ValidPause(row, action, sound) <==> IsExchange(row, action, "pause", action.paused, sound)
    ensures ValidSeek(row, action, sound) ==> IsSeek(row)
    ensures ValidPause(row, action, sound) ==> !IsSeek(row)
  {
    assert "pause"[0] != "seek"[0];
  }

  /** One action's rows: valid seeks, then one valid pause. */
  predicate IsBlock(block: seq<Row>, action: Action, sound: Payload) {
    && block != [] && IsExchange(block[|block| - 1], action, "pause", action.paused, sound)
    && forall k :: 0 <= k < |block| - 1 ==>
         IsExchange(block[k], action, "seek", true, sound) || IsExchange(block[k], action, "seek", false, sound)
  }

  function Flatten(blocks: seq<seq<Row>>): seq<Row> {
    if blocks == [] then [] else blocks[0] + Flatten(blocks[1..])
  }

  ghost predicate AreBlocks(blocks: seq<seq<Row>>, actions: seq<Action>, sound: Payload) {
    |blocks| == |actions| && forall k :: 0 <= k < |blocks| ==> IsBlock(blocks[k], actions[k], sound)
  }

  lemma {:induction false} BlockIsTaken(block: seq<Row>, rest: seq<Row>, action: Action, sound: Payload)
    requires IsBlock(block, action, sound)
    ensures TakeAction(block + rest, action, sound) == Some(rest)
    decreases |block|
  {
    assert (block + rest)[1..] == block[1..] + rest;
    SeekIsExchange(block[0], action, sound);
    if |block| > 1 {
      BlockIsTaken(block[1..], rest, action, sound);
    }
  }

  lemma {:induction false} TakenIsBlock(rows: seq<Row>, action: Action, sound: Payload) returns (block: seq<Row>)
    requires TakeAction(rows, action, sound).Some?
    ensures IsBlock(block, action, sound) && rows == block + TakeAction(rows, action, sound).value
    decreases |rows|
  {
    SeekIsExchange(rows[0], action, sound);
    if IsSeek(rows[0]) {
      var rest := TakenIsBlock(rows[1..], action, sound);
      block := [rows[0]] + rest;
      assert rows == [rows[0]] + rows[1..];
      assert block[|block| - 1] == rest[|rest| - 1];
    } else {
      block := [rows[0]];
      assert rows == [rows[0]] + rows[1..];
    }
  }

  lemma {:induction false} BlocksAreAccepted(blocks: seq<seq<Row>>, actions: seq<Action>, sound: Payload)
    requires AreBlocks(blocks, actions, sound)
    ensures AcceptFrom(Flatten(blocks), actions, sound)
    decreases |blocks|
  {
    hide IsBlock, TakeAction;
    if blocks != [] {
      BlockIsTaken(blocks[0], Flatten(blocks[1..]), actions[0], sound);
      BlocksAreAccepted(blocks[1..], actions[1..], sound);
    }
  }

  lemma {:induction false} AcceptedAreBlocks(rows: seq<Row>, actions: seq<Action>, sound: Payload) returns (blocks: seq<seq<Row>>)
    requires AcceptFrom(rows, actions, sound)
    ensures AreBlocks(blocks, actions, sound) && rows == Flatten(blocks)
    decreases |actions|
  {
    hide IsBlock, TakeAction;
    if actions == [] {
      blocks := [];
    } else {
      var first := TakenIsBlock(rows, actions[0], sound);
      var rest := AcceptedAreBlocks(TakeAction(rows, actions[0], sound).value, actions[1..], sound);
      blocks := [first] + rest;
      assert blocks[1..] == rest;
    }
  }

  /** The rows are accepted exactly when they split into one block per action with nothing left over. */
  lemma AcceptsExactlyBlocks(rows: seq<Row>, actions: seq<Action>, sound: Payload)
    ensures AcceptFrom(rows, actions, sound) <==> exists blocks :: AreBlocks(blocks, actions, sound) && rows == Flatten(blocks)
  {
    hide AreBlocks, Flatten;
    if AcceptFrom(rows, actions, sound) {
      var blocks := AcceptedAreBlocks(rows, actions, sound);
    }
    if exists blocks :: AreBlocks(blocks, actions, sound) && rows == Flatten(blocks) {
      var blocks :| AreBlocks(blocks, actions, sound) && rows == Flatten(blocks);
      BlocksAreAccepted(blocks, actions, sound);
    }
  }

  // ----- loaded, then playing, then paused -----

  /** An observation as far as the search looks at it. */
  datatype Observation = Observation(loaded: bool, pausedLevel: Option<bool>)

  predicate Plays(o: Observation) {
    o.pausedLevel == Some(false)
  }

  predicate Pauses(o: Observation) {
    o.pausedLevel == Some(true)
  }

  /** The first position from `start` on that satisfies a test. */
  method FirstIndex(observations: seq<Observation>, start: nat, test: Observation -> bool) returns (index: Option<nat>)
    ensures index.Some? ==> start <= index.value < |observations| && test(observations[index.value]) &&
                            forall k :: start <= k < index.value ==> !test(observations[k])
    ensures index.None? ==> forall k :: start <= k < |observations| ==> !test(observations[k])
  {
    var k := start;
    while k < |observations|
      invariant start <= k
      invariant forall j :: start <= j < k && j < |observations| ==> !test(observations[j])
    {
      if test(observations[k]) { return Some(k); }
      k := k + 1;
    }
    index := None;
  }

  ghost predicate OrderedTriple(observations: seq<Observation>, i: nat, j: nat, k: nat) {
    i < j < k < |observations| && observations[i].loaded && Plays(observations[j]) && Pauses(observations[k])
  }

  /** Taking the first match each time finds a load, play, pause triple exactly when one exists. */
  method ValidateObservations(observations: seq<Observation>) returns (found: bool)
    ensures found <==> exists i: nat, j: nat, k: nat :: OrderedTriple(observations, i, j, k)
  {
    var loaded := FirstIndex(observations, 0, (o: Observation) => o.loaded);
    if loaded.None? { return false; }
    var playing := FirstIndex(observations, loaded.value + 1, (o: Observation) => Plays(o));
    if playing.None? { return false; }
    var paused := FirstIndex(observations, playing.value + 1, (o: Observation) => Pauses(o));
    if paused.None? { return false; }
    assert OrderedTriple(observations, loaded.value, playing.value, paused.value);
    found := true;
  }
}
