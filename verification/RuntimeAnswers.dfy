/** What each call on the client runtime does, in both directions. */
module RuntimeAnswers {
  import opened Common
  import opened ClientRuntimes

  /** The newest snapshot is the one published last. */
  predicate Publishes(r: Inner, next: Inner, s: Snapshot) {
    next.published == r.published + [s] && next.snapshot == s
  }

  lemma StartAnswers(r: Inner)
    ensures var (next, generation) := Start(r);
      && (generation.Some? <==> r.snapshot.phase == Stopped || r.snapshot.phase == Failed)
      && (generation.None? ==> next == r)
      && (generation.Some? ==>
            && generation.value == r.snapshot.generation + 1
            && Publishes(r, next, Snapshot(r.snapshot.revision + 1, generation.value, Connecting, None))
            && next.task == generation && next.client == r.client && next.closed == r.closed)
  {
  }

  lemma ConnectAnswers(r: Inner, generation: nat, result: Result<ClientId, Failure>)
    ensures var (next, client) := CompleteConnect(r, generation, result);
      var awaited := r.snapshot.phase == Connecting && r.snapshot.generation == generation;
      && (client.Some? <==> awaited && result.Ok?)
      && (awaited && result.Ok? ==>
            && client == Some(result.value) == next.client
            && Publishes(r, next, Snapshot(r.snapshot.revision + 1, generation, Online, None))
            && next.task == r.task && next.closed == r.closed)
      && (awaited && result.Err? ==>
            && Publishes(r, next, Snapshot(r.snapshot.revision + 1, generation, Failed, Some(result.error)))
            && next.client == r.client && next.closed == r.closed && next.task != Some(generation))
      && (!awaited ==> next == r.(closed := if result.Ok? then r.closed + {result.value} else r.closed))
  {
  }

  lemma DisconnectAnswers(r: Inner, generation: nat, failure: Failure)
    ensures var next := CompleteClosed(r, generation, failure);
      if r.snapshot.phase == Online && r.snapshot.generation == generation
      then Publishes(r, next, Snapshot(r.snapshot.revision + 1, generation, Failed, Some(failure)))
        && next.client == None && next.closed == r.closed && next.task != Some(generation)
      else next == r
  {
  }

  lemma StopAnswers(r: Inner)
    ensures var (next, generation) := Stop(r);
      if r.snapshot.phase == Stopped then next == r && generation == r.snapshot.generation
      else
        && generation == r.snapshot.generation + 1
        && next.snapshot == Snapshot(r.snapshot.revision + 2, generation, Stopped, None)
        && next.published == r.published
             + [Snapshot(r.snapshot.revision + 1, generation, Stopping, None), next.snapshot]
        && next.client == None && next.task == None
        && (forall c :: c in next.closed <==> c in r.closed || r.client == Some(c))
  {
  }
}
