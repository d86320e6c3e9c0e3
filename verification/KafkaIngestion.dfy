/** The consumer of one partition: it buffers messages, flushes them into the records, sends the
    ones that do not decode to a dead-letter topic, and commits offsets
    (crates/ketebe-server/src/kafka_ingestion.rs). Writes, publications and commits may fail, and one
    that is reported as failed may have taken effect all the same. */
module KafkaIngestion {
  import opened Wrappers
  import opened Collections
  import opened Store
  import opened Kafka

  datatype PoisonPolicy = Block | Dlq

  datatype KafkaError =
    | EmptyBatch
    | MixedPartitions
    | NonMonotonicOffsets
    | MissingPayload
    | Decode(cause: DecodeError)
    | WriteFailed
    | DlqFailed
    | CommitFailed

  datatype Failures = Failures(writes: nat, publications: nat, commits: nat)

  // An operation that ends like this has counted this failure, and no other.
  function Counting<T>(before: Failures, r: Result<T, KafkaError>): Failures {
    match r
    case Err(WriteFailed) => before.(writes := before.writes + 1)
    case Err(DlqFailed) => before.(publications := before.publications + 1)
    case Err(CommitFailed) => before.(commits := before.commits + 1)
    case _ => before
  }

  datatype BatchAck = BatchAck(partition: int, nextOffset: int, appliedRecords: nat)

  // What the broker guarantees of the messages of one partition.
  ghost predicate InOrder(messages: seq<Message>) {
    && (forall i :: 0 <= i < |messages| ==> messages[i].partition == messages[0].partition)
    && (forall i, j :: 0 <= i < j < |messages| ==> messages[i].offset < messages[j].offset)
  }

  predicate AllPresent(messages: seq<Message>) {
    forall i :: 0 <= i < |messages| ==> messages[i].payload.Some?
  }

  predicate AllDecode<V>(messages: seq<Message>, decode: Decoder<V>) {
    forall i :: 0 <= i < |messages| ==> Decodes(messages[i], decode)
  }

  lemma PartInOrder(messages: seq<Message>, lo: nat, hi: nat)
    requires InOrder(messages) && lo <= hi <= |messages|
    ensures InOrder(messages[lo..hi])
  {
  }

  method ValidatePartitionBatch(messages: seq<Message>) returns (r: Result<(), KafkaError>)
    ensures r == Err(EmptyBatch) <==> messages == []
    ensures r.Ok? <==> messages != [] && InOrder(messages)
    ensures r.Err? ==> r.error in {EmptyBatch, MixedPartitions, NonMonotonicOffsets}
  {
    if messages == [] { return Err(EmptyBatch); }
    for i := 0 to |messages|
      invariant InOrder(messages[..i])
    {
      var m := messages[i];
      if m.partition != messages[0].partition { return Err(MixedPartitions); }
      if i > 0 && m.offset <= messages[i - 1].offset { return Err(NonMonotonicOffsets); }
      assert i > 0 ==> messages[..i][i - 1] == messages[i - 1] && messages[..i][0] == messages[0];
      NextInOrder(messages, i);
    }
    assert messages[..|messages|] == messages;
    r := Ok(());
  }

  lemma NextInOrder(messages: seq<Message>, i: nat)
    requires i < |messages| && InOrder(messages[..i])
    requires messages[i].partition == messages[0].partition
    requires i > 0 ==> messages[i - 1].offset < messages[i].offset
    ensures InOrder(messages[..i + 1])
  {
    var now, next := messages[..i], messages[..i + 1];
    assert forall j :: 0 <= j < i ==> next[j] == now[j] == messages[j];
    forall j, k | 0 <= j < k < i + 1
      ensures next[j].offset < next[k].offset
    {
      if k == i && j < i - 1 {
        assert now[j].offset < now[i - 1].offset;
      }
    }
  }

  method FirstPoison<V>(messages: seq<Message>, decode: Decoder<V>) returns (i: nat)
    ensures i <= |messages| && AllDecode(messages[..i], decode)
    ensures i < |messages| ==> !Decodes(messages[i], decode)
  {
    i := 0;
    while i < |messages| && Decodes(messages[i], decode)
      invariant i <= |messages| && AllDecode(messages[..i], decode)
    {
      i := i + 1;
    }
  }

  ghost predicate Ascending(offsets: seq<int>) {
    forall i, j :: 0 <= i < j < |offsets| ==> offsets[i] < offsets[j]
  }

  // The offsets committed while `handled` was worked off, the last of them right behind it.
  ghost predicate CommitTrail(trail: seq<int>, handled: seq<Message>) {
    && (trail == [] <==> handled == [])
    && (handled != [] ==> trail[|trail| - 1] == handled[|handled| - 1].offset + 1)
    && (forall i :: 0 <= i < |trail| ==> exists m :: m in handled && trail[i] == m.offset + 1)
    && (InOrder(handled) ==> Ascending(trail))
  }

  lemma TrailGrows(trail: seq<int>, handled: seq<Message>, chunk: seq<Message>)
    requires CommitTrail(trail, handled) && chunk != []
    ensures CommitTrail(trail + [chunk[|chunk| - 1].offset + 1], handled + chunk)
  {
    var last := chunk[|chunk| - 1];
    assert last in chunk;
    assert CommitTrail([last.offset + 1], chunk);
    TrailsJoin(trail, handled, [last.offset + 1], chunk);
  }

  class Consumer<V> {
    const decode: Decoder<V>
    const policy: PoisonPolicy
    const batchMaxRecords: nat
    // Whether every write, publication and commit succeeds.
    const healthy: bool

    var table: Table<V>
    var buffer: seq<Message>
    var deadLetters: seq<Message>
    var commits: seq<int>

    var receivedRecords: nat
    var appliedRecords: nat
    var decodeFailures: nat
    var writeFailures: nat
    var commitFailures: nat
    var dlqRecords: nat
    var dlqFailures: nat

    ghost function FailuresSoFar(): Failures
      reads this
    {
      Failures(writeFailures, dlqFailures, commitFailures)
    }

    // A write is visible before the collection is sealed, which may fail; a commit or a publication
    // may time out after it has reached the broker.
    method Performs() returns (effective: bool, ok: bool)
      ensures ok ==> effective
      ensures healthy ==> ok
    {
      ok := *;
      ok := ok || healthy;
      effective := *;
      effective := effective || ok;
    }

    method ApplyOne(m: Message) returns (ok: bool, ghost effective: bool)
      requires Decodes(m, decode)
      modifies this`table, this`appliedRecords, this`writeFailures
      ensures table == if effective then Deliver(old(table), m, decode) else old(table)
      ensures appliedRecords == old(appliedRecords) + if ok then 1 else 0
      ensures ok ==> effective
      ensures healthy ==> ok
      ensures writeFailures == old(writeFailures) + if ok then 0 else 1
    {
      var reached;
      reached, ok := Performs();
      effective := reached;
      if reached { table := Change(table, decode(m.payload.value).value); }
      if ok { appliedRecords := appliedRecords + 1; } else { writeFailures := writeFailures + 1; }
    }

    method ApplyPartitionBatch(messages: seq<Message>) returns (r: Result<BatchAck, KafkaError>, ghost done: nat)
      requires AllPresent(messages)
      modifies this`table, this`receivedRecords, this`appliedRecords, this`decodeFailures, this`writeFailures
      ensures done <= |messages| && table == DeliverAll(old(table), messages[..done], decode)
      ensures AllDecode(messages[..done], decode)
      ensures appliedRecords == old(appliedRecords) + done
              || (r == Err(WriteFailed) && appliedRecords + 1 == old(appliedRecords) + done)
      ensures r.Ok? ==> appliedRecords == old(appliedRecords) + done
      ensures r.Ok? ==> done == |messages| > 0
                        && r.value == BatchAck(messages[0].partition, messages[done - 1].offset + 1, done)
      ensures r.Ok? ==> receivedRecords == old(receivedRecords) + |messages|
      ensures !AllDecode(messages, decode) ==> r.Err? && done == 0
      ensures healthy ==> (r.Ok? <==> messages != [] && InOrder(messages) && AllDecode(messages, decode))
      ensures FailuresSoFar() == Counting(old(FailuresSoFar()), r)
      ensures decodeFailures == old(decodeFailures) + if r.Err? && r.error.Decode? then 1 else 0
      ensures r.Err? ==> r.error in {EmptyBatch, MixedPartitions, NonMonotonicOffsets, WriteFailed} || r.error.Decode?
      ensures r.Err? && r.error.Decode? ==> !AllDecode(messages, decode)
    {
      assert messages[..0] == [];
      var valid := ValidatePartitionBatch(messages);
      if valid.Err? { return Err(valid.error), 0; }
      receivedRecords := receivedRecords + |messages|;
      var poison := FirstPoison(messages, decode);
      if poison < |messages| {
        decodeFailures := decodeFailures + 1;
        return Err(Decode(decode(messages[poison].payload.value).error)), 0;
      }
      var ok;
      ok, done := ApplyAll(messages);
      if !ok { return Err(WriteFailed), done; }
      assert messages[..|messages|] == messages;
      r := Ok(BatchAck(messages[0].partition, messages[|messages| - 1].offset + 1, |messages|));
    }

    method ApplyAll(messages: seq<Message>) returns (ok: bool, ghost done: nat)
      requires AllDecode(messages, decode)
      modifies this`table, this`appliedRecords, this`writeFailures
      ensures done <= |messages| && table == DeliverAll(old(table), messages[..done], decode)
      ensures ok ==> done == |messages|
      ensures appliedRecords == old(appliedRecords) + done || (!ok && appliedRecords + 1 == old(appliedRecords) + done)
      ensures healthy ==> ok
      ensures writeFailures == old(writeFailures) + if ok then 0 else 1
    {
      done := 0;
      for i := 0 to |messages|
        invariant done == i && table == DeliverAll(old(table), messages[..i], decode)
        invariant appliedRecords == old(appliedRecords) + i && writeFailures == old(writeFailures)
      {
        assert messages[..i + 1][..i] == messages[..i];
        ghost var effective;
        ok, effective := ApplyOne(messages[i]);
        done := if effective then i + 1 else i;
        if !ok { return; }
      }
      ok := true;
    }

    method CommitAck(ack: BatchAck) returns (ok: bool, ghost effective: bool)
      modifies this`commits, this`commitFailures
      ensures commits == if effective then old(commits) + [ack.nextOffset] else old(commits)
      ensures ok ==> effective
      ensures healthy ==> ok
      ensures commitFailures == old(commitFailures) + if ok then 0 else 1
    {
      var reached;
      reached, ok := Performs();
      effective := reached;
      if reached { commits := commits + [ack.nextOffset]; }
      if !ok { commitFailures := commitFailures + 1; }
    }

    method PublishDlq(m: Message) returns (ok: bool, ghost effective: bool)
      modifies this`deadLetters, this`dlqRecords, this`dlqFailures
      ensures deadLetters == if effective then old(deadLetters) + [m] else old(deadLetters)
      ensures dlqRecords == old(dlqRecords) + if ok then 1 else 0
      ensures ok ==> effective
      ensures healthy ==> ok
      ensures dlqFailures == old(dlqFailures) + if ok then 0 else 1
    {
      var reached;
      reached, ok := Performs();
      effective := reached;
      if reached { deadLetters := deadLetters + [m]; }
      if ok { dlqRecords := dlqRecords + 1; } else { dlqFailures := dlqFailures + 1; }
    }

    // One round on the first `n` buffered messages, all of which decode. `committed` of them have been
    // committed in the end.
    method FlushPrefix(n: nat, ghost ordered: bool)
      returns (r: Result<(), KafkaError>, ghost done: nat, ghost committed: nat)
      requires 0 < n <= |buffer| && AllPresent(buffer) && AllDecode(buffer[..n], decode)
      requires ordered ==> InOrder(buffer[..n])
      modifies this`table, this`buffer, this`commits, this`receivedRecords, this`appliedRecords,
               this`decodeFailures, this`writeFailures, this`commitFailures
      ensures done <= n && table == DeliverAll(old(table), old(buffer)[..done], decode)
      ensures Poison(old(buffer)[..done], decode) == []
      ensures (committed == 0 && commits == old(commits))
              || (committed == done == n && commits == old(commits) + [old(buffer)[n - 1].offset + 1])
      ensures r.Ok? ==> committed == n && buffer == old(buffer)[n..]
                        && receivedRecords == old(receivedRecords) + n && appliedRecords == old(appliedRecords) + n
      ensures r.Err? ==> buffer == old(buffer)
      ensures healthy && ordered ==> r.Ok?
      ensures FailuresSoFar() == Counting(old(FailuresSoFar()), r)
      ensures decodeFailures == old(decodeFailures) && !(r.Err? && r.error.Decode?)
    {
      var ack;
      ack, done := ApplyPartitionBatch(buffer[..n]);
      assert buffer[..n][..done] == buffer[..done];
      PoisonCount(buffer[..done], decode);
      if ack.Err? { return Err(ack.error), done, 0; }
      var ok;
      ghost var effective;
      ok, effective := CommitAck(ack.value);
      committed := if effective then n else 0;
      if !ok { return Err(CommitFailed), done, committed; }
      buffer := buffer[n..];
      r := Ok(());
    }

    // One round on a first message that does not decode.
    method DeadLetterFirst() returns (r: Result<(), KafkaError>, ghost done: nat, ghost committed: nat)
      requires buffer != [] && !Decodes(buffer[0], decode)
      modifies this`buffer, this`commits, this`deadLetters, this`receivedRecords, this`decodeFailures,
               this`commitFailures, this`dlqRecords, this`dlqFailures
      ensures done <= 1 && deadLetters == old(deadLetters) + old(buffer)[..done]
      ensures (committed == 0 && commits == old(commits))
              || (committed == done == 1 && commits == old(commits) + [old(buffer)[0].offset + 1])
      ensures r.Ok? ==> committed == 1 && buffer == old(buffer)[1..]
                        && receivedRecords == old(receivedRecords) + 1 && dlqRecords == old(dlqRecords) + 1
      ensures r.Err? ==> buffer == old(buffer)
      ensures healthy ==> r.Ok?
      ensures FailuresSoFar() == Counting(old(FailuresSoFar()), r)
      ensures decodeFailures == old(decodeFailures) + 1
      ensures dlqRecords == old(dlqRecords) + if r == Err(DlqFailed) then 0 else 1
    {
      var first := buffer[0];
      receivedRecords := receivedRecords + 1;
      decodeFailures := decodeFailures + 1;
      assert buffer[..1] == [first];
      var ok;
      ghost var effective;
      ok, effective := PublishDlq(first);
      done := if effective then 1 else 0;
      if !ok { return Err(DlqFailed), done, 0; }
      ok, effective := CommitAck(BatchAck(first.partition, first.offset + 1, 0));
      committed := if effective then 1 else 0;
      if !ok { return Err(CommitFailed), 1, committed; }
      buffer := buffer[1..];
      r := Ok(());
    }

    // What is buffered are the last ones of `before`; all others have been committed.
    ghost predicate Remaining(before: seq<Message>, acked: nat)
      reads this
    {
      exists left: nat :: left <= acked && left <= |before| && buffer == before[left..]
    }

    // Of the messages `before` that were buffered, the first `frontier` have been handled, each once
    // and in order: applied if they decode, dead-lettered if not. The first `acked` of them have been
    // committed.
    ghost predicate Handled(start: Table<V>, letters: seq<Message>, offsets: seq<int>, before: seq<Message>,
                            frontier: nat, acked: nat)
      reads this
    {
      && acked <= frontier <= |before|
      && table == DeliverAll(start, before[..frontier], decode)
      && deadLetters == letters + Poison(before[..frontier], decode)
      && Committed(offsets, commits, before[..acked])
    }

    // What a round did to `chunk`, the part of the buffer from `acked` to `frontier`.
    lemma RoundHandled(start: Table<V>, letters: seq<Message>, offsets: seq<int>, before: seq<Message>, acked: nat,
                       chunk: seq<Message>, frontier: nat, committed: nat, table0: Table<V>, letters0: seq<Message>)
      requires acked <= frontier <= |before| && committed <= frontier && chunk == before[acked..frontier]
      requires table0 == DeliverAll(start, before[..acked], decode)
      requires letters0 == letters + Poison(before[..acked], decode)
      requires table == DeliverAll(table0, chunk, decode)
      requires deadLetters == letters0 + Poison(chunk, decode)
      requires Committed(offsets, commits, before[..committed])
      ensures Handled(start, letters, offsets, before, frontier, committed)
    {
      JoinPrefix(before, acked, frontier);
      DeliverConcatenation(start, before[..acked], chunk, decode);
    }

    lemma PrefixRound(ok: bool, start: Table<V>, letters: seq<Message>, offsets: seq<int>, before: seq<Message>,
                      acked: nat, done: nat, n: nat, table0: Table<V>, commits0: seq<int>, frontier: nat,
                      committed: nat, chunk: seq<Message>)
      requires frontier == acked + done && committed == acked + if ok then n else 0
      requires done <= n && 0 < n && acked + n <= |before| && chunk == before[acked..frontier]
      requires table0 == DeliverAll(start, before[..acked], decode)
      requires deadLetters == letters + Poison(before[..acked], decode)
      requires Committed(offsets, commits0, before[..acked])
      requires table == DeliverAll(table0, chunk, decode) && Poison(chunk, decode) == []
      requires ok ==> done == n && commits == commits0 + [before[acked + n - 1].offset + 1]
      requires !ok ==> commits == commits0
      ensures Handled(start, letters, offsets, before, frontier, committed)
    {
      if ok {
        CommitsGrow(offsets, commits0, before, acked, committed);
      }
      RoundHandled(start, letters, offsets, before, acked, chunk, frontier, committed, table0, deadLetters);
    }

    method RoundOnPrefix(n: nat, ghost start: Table<V>, ghost letters: seq<Message>, ghost offsets: seq<int>,
                         ghost before: seq<Message>, ghost acked: nat)
      returns (r: Result<(), KafkaError>, ghost frontier: nat, ghost committed: nat)
      requires 0 < n <= |buffer| && AllPresent(buffer) && AllDecode(buffer[..n], decode)
      requires Handled(start, letters, offsets, before, acked, acked) && buffer == before[acked..]
      modifies this`table, this`buffer, this`commits, this`receivedRecords, this`appliedRecords,
               this`decodeFailures, this`writeFailures, this`commitFailures
      ensures Handled(start, letters, offsets, before, frontier, committed)
      ensures r.Ok? ==> frontier == committed > acked && buffer == before[committed..]
      ensures r.Err? ==> committed >= acked && buffer == old(buffer)
      ensures r.Ok? ==>
                receivedRecords - old(receivedRecords) == committed - acked == appliedRecords - old(appliedRecords)
      ensures healthy && InOrder(before) ==> r.Ok?
      ensures FailuresSoFar() == Counting(old(FailuresSoFar()), r)
      ensures decodeFailures - old(decodeFailures) ==
                dlqRecords - old(dlqRecords) + if r == Err(DlqFailed) then 1 else 0
    {
      ghost var table0, commits0 := table, commits;
      HeadOfRest(before, acked, n);
      ghost var done, more;
      r, done, more := FlushPrefix(n, InOrder(before));
      frontier, committed := acked + done, acked + more;
      HeadOfRest(before, acked, done);
      RestOfRest(before, acked, n);
      PrefixRound(more == n, start, letters, offsets, before, acked, done, n, table0, commits0,
                  frontier, committed, before[acked..acked + done]);
    }

    method RoundOnPoison(ghost start: Table<V>, ghost letters: seq<Message>, ghost offsets: seq<int>,
                         ghost before: seq<Message>, ghost acked: nat)
      returns (r: Result<(), KafkaError>, ghost frontier: nat, ghost committed: nat)
      requires buffer != [] && !Decodes(buffer[0], decode)
      requires Handled(start, letters, offsets, before, acked, acked) && buffer == before[acked..]
      modifies this`buffer, this`commits, this`deadLetters, this`receivedRecords, this`decodeFailures,
               this`commitFailures, this`dlqRecords, this`dlqFailures
      ensures Handled(start, letters, offsets, before, frontier, committed)
      ensures r.Ok? ==> frontier == committed > acked && buffer == before[committed..]
      ensures r.Err? ==> committed >= acked && buffer == old(buffer)
      ensures r.Ok? ==> receivedRecords - old(receivedRecords) == committed - acked == dlqRecords - old(dlqRecords)
      ensures healthy ==> r.Ok?
      ensures FailuresSoFar() == Counting(old(FailuresSoFar()), r)
      ensures decodeFailures - old(decodeFailures) ==
                dlqRecords - old(dlqRecords) + if r == Err(DlqFailed) then 1 else 0
    {
      ghost var letters0, commits0 := deadLetters, commits;
      ghost var done, more;
      r, done, more := DeadLetterFirst();
      frontier, committed := acked + done, acked + more;
      RestOfRest(before, acked, 1);
      PoisonRound(more == 1, start, letters, offsets, before, acked, done, letters0, commits0, frontier, committed);
    }

    lemma PoisonRound(ok: bool, start: Table<V>, letters: seq<Message>, offsets: seq<int>, before: seq<Message>,
                      acked: nat, done: nat, letters0: seq<Message>, commits0: seq<int>, frontier: nat, committed: nat)
      requires frontier == acked + done && committed == acked + if ok then 1 else 0
      requires acked < |before| && done <= 1 && !Decodes(before[acked], decode)
      requires table == DeliverAll(start, before[..acked], decode)
      requires letters0 == letters + Poison(before[..acked], decode)
      requires Committed(offsets, commits0, before[..acked])
      requires deadLetters == letters0 + before[acked..][..done]
      requires ok ==> done == 1 && commits == commits0 + [before[acked].offset + 1]
      requires !ok ==> commits == commits0
      ensures Handled(start, letters, offsets, before, frontier, committed)
    {
      OneDeadLetter(before, acked, done, table, decode);
      if ok {
        CommitsGrow(offsets, commits0, before, acked, committed);
      }
      RoundHandled(start, letters, offsets, before, acked, before[acked..frontier], frontier, committed, table,
                   letters0);
    }

    // One round of the flush: on what precedes the first poison message, or on that message.
    method Round(ghost start: Table<V>, ghost letters: seq<Message>, ghost offsets: seq<int>,
                 ghost before: seq<Message>, ghost acked: nat)
      returns (r: Result<(), KafkaError>, ghost frontier: nat, ghost committed: nat)
      requires buffer != [] && AllPresent(buffer)
      requires Handled(start, letters, offsets, before, acked, acked) && buffer == before[acked..]
      modifies this
      ensures Handled(start, letters, offsets, before, frontier, committed)
      ensures r.Ok? ==> frontier == committed > acked && buffer == before[committed..]
      ensures r.Err? ==> committed >= acked && buffer == old(buffer)
      ensures r.Ok? ==> receivedRecords - old(receivedRecords) == committed - acked
                     == (appliedRecords - old(appliedRecords)) + (dlqRecords - old(dlqRecords))
      ensures healthy && InOrder(before) ==> r.Ok?
      ensures FailuresSoFar() == Counting(old(FailuresSoFar()), r)
      ensures decodeFailures - old(decodeFailures) ==
                dlqRecords - old(dlqRecords) + if r == Err(DlqFailed) then 1 else 0
    {
      var poison := FirstPoison(buffer, decode);
      if poison > 0 {
        r, frontier, committed := RoundOnPrefix(poison, start, letters, offsets, before, acked);
      } else {
        r, frontier, committed := RoundOnPoison(start, letters, offsets, before, acked);
      }
    }

    // `flush_partition_with_dlq`.
    method FlushPartitionWithDlq() returns (r: Result<(), KafkaError>, ghost frontier: nat, ghost acked: nat)
      modifies this
      ensures Handled(old(table), old(deadLetters), old(commits), old(buffer), frontier, acked)
      ensures Remaining(old(buffer), acked)
      ensures r.Ok? ==> acked == |old(buffer)| && buffer == []
      ensures r.Ok? ==> receivedRecords - old(receivedRecords) == |old(buffer)|
                     == (appliedRecords - old(appliedRecords)) + (dlqRecords - old(dlqRecords))
      ensures old(buffer) != [] && !AllPresent(old(buffer)) ==> r == Err(MissingPayload) && frontier == 0
      ensures healthy && InOrder(old(buffer)) ==> (r.Ok? <==> AllPresent(old(buffer)))
      ensures FailuresSoFar() == Counting(old(FailuresSoFar()), r)
      ensures decodeFailures - old(decodeFailures) ==
                dlqRecords - old(dlqRecords) + if r == Err(DlqFailed) then 1 else 0
    {
      ghost var before, start, letters, offsets := buffer, table, deadLetters, commits;
      frontier, acked := 0, 0;
      assert before[..0] == [];
      while buffer != []
        invariant Handled(start, letters, offsets, before, frontier, acked) && frontier == acked
        invariant buffer == before[acked..]
        invariant acked > 0 ==> AllPresent(before)
        invariant receivedRecords - old(receivedRecords) == acked
        invariant (appliedRecords - old(appliedRecords)) + (dlqRecords - old(dlqRecords)) == acked
        invariant FailuresSoFar() == old(FailuresSoFar())
        invariant decodeFailures - old(decodeFailures) == dlqRecords - old(dlqRecords)
        decreases |buffer|
      {
        if exists i :: 0 <= i < |buffer| && buffer[i].payload.None? {
          return Err(MissingPayload), frontier, acked;
        }
        assert AllPresent(before) by {
          if acked == 0 { assert buffer == before; }
        }
        ghost var left := acked;
        r, frontier, acked := Round(start, letters, offsets, before, acked);
        if r.Err? {
          assert left <= acked && buffer == before[left..];
          return;
        }
      }
      r := Ok(());
    }

    // `flush_partition` where a message that does not decode blocks the partition.
    method FlushPartitionBlocking() returns (r: Result<(), KafkaError>, ghost frontier: nat, ghost acked: nat)
      requires buffer != []
      modifies this
      ensures Handled(old(table), old(deadLetters), old(commits), old(buffer), frontier, acked)
      ensures Remaining(old(buffer), acked)
      ensures r.Ok? ==> acked == |old(buffer)| && buffer == [] && AllDecode(old(buffer), decode)
      ensures !AllDecode(old(buffer), decode) ==> r.Err? && frontier == 0
      ensures healthy && InOrder(old(buffer)) ==> (r.Ok? <==> AllDecode(old(buffer), decode))
      ensures FailuresSoFar() == Counting(old(FailuresSoFar()), r)
    {
      ghost var before, start, commits0 := buffer, table, commits;
      if exists i :: 0 <= i < |buffer| && buffer[i].payload.None? {
        NothingHandled();
        assert buffer[0..] == buffer;
        return Err(MissingPayload), 0, 0;
      }
      var ack;
      ack, frontier := ApplyPartitionBatch(buffer);
      if ack.Err? {
        WholeBatch(false, start, commits0, before, frontier, 0);
        assert buffer[0..] == buffer;
        return Err(ack.error), frontier, 0;
      }
      var ok;
      ghost var effective;
      ok, effective := CommitAck(ack.value);
      if ok { buffer := []; }
      acked := if effective then |before| else 0;
      assert buffer == before[if ok then |before| else 0..];
      WholeBatch(effective, start, commits0, before, frontier, acked);
      r := if ok then Ok(()) else Err(CommitFailed);
    }

    lemma NothingHandled()
      ensures Handled(table, deadLetters, commits, buffer, 0, 0)
    {
      assert buffer[..0] == [] && buffer[0..] == buffer && commits[|commits|..] == [];
    }

    lemma WholeBatch(ok: bool, start: Table<V>, commits0: seq<int>, before: seq<Message>, frontier: nat, acked: nat)
      requires before != [] && frontier <= |before| && acked == if ok then |before| else 0
      requires table == DeliverAll(start, before[..frontier], decode) && AllDecode(before[..frontier], decode)
      requires ok ==> frontier == |before| && commits == commits0 + [before[|before| - 1].offset + 1]
      requires !ok ==> commits == commits0
      ensures Handled(start, deadLetters, commits0, before, frontier, acked)
    {
      assert before[..0] == [] && before[0..] == before && commits0[|commits0|..] == [];
      PoisonCount(before[..frontier], decode);
      PrefixRound(ok, start, deadLetters, commits0, before, 0, frontier, |before|, start, commits0, frontier, acked,
                  before[..frontier]);
    }

    method FlushPartition() returns (r: Result<(), KafkaError>, ghost frontier: nat, ghost acked: nat)
      modifies this
      ensures Handled(old(table), old(deadLetters), old(commits), old(buffer), frontier, acked)
      ensures Remaining(old(buffer), acked)
      ensures r.Ok? ==> acked == |old(buffer)| && buffer == []
      ensures healthy && InOrder(old(buffer)) ==>
                (r.Ok? <==> if policy == Block then AllDecode(old(buffer), decode) else AllPresent(old(buffer)))
      ensures FailuresSoFar() == Counting(old(FailuresSoFar()), r)
    {
      if buffer == [] {
        assert buffer[0..] == buffer;
        return Ok(()), 0, 0;
      }
      if policy == Block {
        r, frontier, acked := FlushPartitionBlocking();
      } else {
        r, frontier, acked := FlushPartitionWithDlq();
      }
    }

    // How far the records, the dead letters and the committed offset have come along `stream`.
    ghost predicate Progress(start: Table<V>, letters: seq<Message>, offsets: seq<int>, stream: seq<Message>,
                             frontier: nat, acked: nat)
      reads this
    {
      && acked <= frontier <= |stream|
      && table == DeliverAll(start, stream[..frontier], decode)
      && deadLetters == letters + Poison(stream[..frontier], decode)
      && Committed(offsets, commits, stream[..acked])
    }

    // Messages that the policy lets pass.
    predicate Acceptable(messages: seq<Message>) {
      if policy == Block then AllDecode(messages, decode) else AllPresent(messages)
    }

    lemma PartIsAcceptable(messages: seq<Message>, lo: nat, hi: nat)
      requires lo <= hi <= |messages|
      ensures InOrder(messages) ==> InOrder(messages[lo..hi])
      ensures Acceptable(messages) ==> Acceptable(messages[lo..hi])
    {
      if InOrder(messages) {
        PartInOrder(messages, lo, hi);
      }
    }

    method FlushReceived(ghost start: Table<V>, ghost letters: seq<Message>, ghost offsets: seq<int>,
                         ghost stream: seq<Message>, ghost position: nat, ghost received: nat)
      returns (r: Result<(), KafkaError>, ghost frontier: nat, ghost acked: nat)
      requires Progress(start, letters, offsets, stream, position, position)
      requires position <= received <= |stream| && buffer == stream[position..received]
      modifies this
      ensures Progress(start, letters, offsets, stream, frontier, acked)
      ensures r.Ok? ==> frontier == acked == received && buffer == []
      ensures healthy && InOrder(old(buffer)) && Acceptable(old(buffer)) ==> r.Ok?
    {
      ghost var table0, letters0, commits0 := table, deadLetters, commits;
      ghost var more, done;
      r, more, done := FlushPartition();
      frontier, acked := position + more, position + done;
      Onward(start, letters, offsets, stream, position, received, table0, letters0, commits0, more, done, frontier,
             acked);
    }

    // One turn of the ingestion loop: it receives the next message, or pauses, in which case the
    // buffer is flushed, or has been asked to drain.
    method Turn(event: Event, ghost start: Table<V>, ghost letters: seq<Message>, ghost offsets: seq<int>,
                stream: seq<Message>, ghost position: nat, received: nat)
      returns (r: Result<(), KafkaError>, ghost frontier: nat, ghost acked: nat, now: nat)
      requires Progress(start, letters, offsets, stream, position, position)
      requires position <= received <= |stream| && buffer == stream[position..received]
      modifies this
      ensures now == if event == Receive && received < |stream| then received + 1 else received
      ensures Progress(start, letters, offsets, stream, frontier, acked)
      ensures r.Ok? ==> frontier == acked <= now && buffer == stream[acked..now]
      // A full buffer is flushed, and in a pause and for a drain any; otherwise nothing is.
      ensures r.Ok? && now > received ==> |buffer| < batchMaxRecords || buffer == []
      ensures event == Receive && now == received ==> r.Ok? && buffer == old(buffer)
      ensures r.Ok? && event in {Linger, Drain} ==> buffer == []
      ensures event == Receive && now - position < batchMaxRecords ==>
                r.Ok? && acked == position && table == old(table) && deadLetters == old(deadLetters)
                && commits == old(commits)
      ensures healthy && InOrder(stream) && Acceptable(stream) ==> r.Ok?
    {
      now, frontier, acked := received, position, position;
      if event == Receive {
        if received == |stream| { return Ok(()), frontier, acked, now; }
        now := received + 1;
        buffer := buffer + [stream[received]];
        assert buffer == stream[position..now];
        if |buffer| < batchMaxRecords { return Ok(()), frontier, acked, now; }
      }
      PartIsAcceptable(stream, position, now);
      r, frontier, acked := FlushReceived(start, letters, offsets, stream, position, now);
    }

    // Messages are received without a pause, and too few for a batch.
    ghost predicate NeverFull(events: seq<Event>, available: nat) {
      (forall e :: e in events ==> e == Receive) && Received(events, available) < batchMaxRecords
    }

    // The ingestion loop on the messages fetched after the committed position.
    method Run(stream: seq<Message>, events: seq<Event>)
      returns (r: Result<(), KafkaError>, ghost frontier: nat, ghost acked: nat)
      requires buffer == []
      modifies this
      ensures Progress(old(table), old(deadLetters), old(commits), stream, frontier, acked)
      // What was received and is not in the buffer has been handled; after a drain that is all of it.
      ensures r.Ok? ==> acked == frontier <= Received(events, |stream|) <= |stream|
                        && buffer == stream[acked..Received(events, |stream|)]
      ensures r.Ok? && Drain in events ==> buffer == []
      // No more than an incomplete batch is left, and nothing after a pause.
      ensures r.Ok? ==> |buffer| < batchMaxRecords || buffer == []
      ensures r.Ok? && events != [] && events[|events| - 1] == Linger ==> buffer == []
      // As long as no batch is full and there is no pause, nothing is applied nor committed.
      ensures NeverFull(events, |stream|) ==> r.Ok? && acked == 0 && table == old(table) && commits == old(commits)
      ensures healthy && InOrder(stream) && Acceptable(stream) ==> r.Ok?
    {
      frontier, acked := 0, 0;
      assert stream[..0] == [];
      var received := 0;
      for i := 0 to |events|
        invariant frontier == acked <= received <= |stream| && received == Received(events[..i], |stream|)
        invariant Progress(old(table), old(deadLetters), old(commits), stream, frontier, acked)
        invariant buffer == stream[acked..received]
        invariant Drain !in events[..i]
        invariant |buffer| < batchMaxRecords || buffer == []
        invariant i > 0 && events[i - 1] == Linger ==> buffer == []
        invariant NeverFull(events, |stream|) ==> acked == 0 && table == old(table) && commits == old(commits)
      {
        NextReceived(events, i, |stream|);
        r, frontier, acked, received := Turn(events[i], old(table), old(deadLetters), old(commits), stream, acked,
                                              received);
        if r.Err? { return; }
        if events[i] == Drain { return; }
      }
      assert events[..|events|] == events;
      r := Ok(());
    }

    // Where a consumer resumes: at the first message at or beyond the offset that was committed last,
    // if any was since there were `known` of them. That is the message behind the last committed one.
    method ResumeAt(stream: seq<Message>, known: nat, ghost offsets: seq<int>, ghost acked: nat)
      returns (position: nat)
      requires InOrder(stream) && acked <= |stream|
      requires known == |offsets| && Committed(offsets, commits, stream[..acked])
      ensures position == acked
    {
      position := 0;
      if |commits| > known {
        var next := commits[|commits| - 1];
        assert next == commits[known..][|commits| - known - 1] == stream[..acked][acked - 1].offset + 1;
        while position < |stream| && stream[position].offset < next
          invariant position <= acked
        {
          assert position < acked;
          position := position + 1;
        }
      }
    }

    // What these attempts have come to.
    ghost predicate Attempted(start: Table<V>, letters: seq<Message>, offsets: seq<int>, stream: seq<Message>,
                              attempts: seq<Attempt>, committed: nat)
      reads this
    {
      && AttemptsFrom(0, attempts, |stream|)
      && (table, committed) == AfterAttempts(start, stream, 0, attempts, decode)
      && deadLetters == letters + Letters(stream, 0, attempts, decode)
      && committed <= |stream| && Committed(offsets, commits, stream[..committed])
    }

    // One more run, which resumes after whatever ended the one before.
    method Resume(stream: seq<Message>, events: seq<Event>, position: nat, known: nat, ghost start: Table<V>,
                  ghost letters: seq<Message>, ghost offsets: seq<int>, ghost attempts: seq<Attempt>)
      returns (committed: nat, ghost more: seq<Attempt>)
      requires InOrder(stream) && known == |offsets|
      requires Attempted(start, letters, offsets, stream, attempts, position)
      modifies this
      ensures Attempted(start, letters, offsets, stream, more, committed)
    {
      ghost var table0, letters0, commits0 := table, deadLetters, commits;
      buffer := [];
      var _, frontier, acked := Run(stream[position..], events);
      ghost var attempt := Attempt(position + frontier, position + acked);
      ResumedRun(stream, position, start, table0, letters, letters0, offsets, commits0, attempts, attempt, frontier,
                 acked);
      more := attempts + [attempt];
      committed := ResumeAt(stream, known, offsets, attempt.acked);
    }

    // Any number of runs. They are attempts as in `AtLeastOnceConverges`, so when everything has been
    // committed, the records are as if every message had been delivered once, in order.
    method RunRepeatedly(stream: seq<Message>, schedules: seq<seq<Event>>)
      returns (committed: nat, ghost attempts: seq<Attempt>)
      requires InOrder(stream)
      modifies this
      ensures Attempted(old(table), old(deadLetters), old(commits), stream, attempts, committed)
      ensures committed == |stream| ==> table == DeliverAll(old(table), stream, decode)
      // Only messages that do not decode are dead-lettered, and those that are committed have been.
      ensures old(deadLetters) <= deadLetters
      ensures forall m :: m in deadLetters[|old(deadLetters)|..] ==> m in stream && !Decodes(m, decode)
      ensures forall i :: 0 <= i < committed && !Decodes(stream[i], decode) ==>
                stream[i] in deadLetters[|old(deadLetters)|..]
    {
      var known := |commits|;
      committed, attempts := 0, [];
      for i := 0 to |schedules|
        invariant Attempted(old(table), old(deadLetters), old(commits), stream, attempts, committed)
      {
        committed, attempts := Resume(stream, schedules[i], committed, known, old(table), old(deadLetters),
                                      old(commits), attempts);
      }
      AtLeastOnceConverges(old(table), stream, attempts, decode);
      LettersAre(old(table), stream, 0, attempts, decode);
      assert deadLetters[|old(deadLetters)|..] == Letters(stream, 0, attempts, decode);
      assert committed == |stream| ==> stream[committed..] == [];
    }

    lemma ResumedRun(stream: seq<Message>, position: nat, start: Table<V>, table0: Table<V>, letters: seq<Message>,
                     letters0: seq<Message>, offsets: seq<int>, commits0: seq<int>, attempts: seq<Attempt>,
                     attempt: Attempt, frontier: nat, acked: nat)
      requires position <= |stream| && Progress(table0, letters0, commits0, stream[position..], frontier, acked)
      requires AttemptsFrom(0, attempts, |stream|)
      requires (table0, position) == AfterAttempts(start, stream, 0, attempts, decode)
      requires letters0 == letters + Letters(stream, 0, attempts, decode)
      requires Committed(offsets, commits0, stream[..position])
      requires attempt == Attempt(position + frontier, position + acked)
      ensures Attempted(start, letters, offsets, stream, attempts + [attempt], attempt.acked)
    {
      ResumedState(stream, position, start, table0, table, letters, letters0, deadLetters, attempts, attempt, frontier,
                   decode);
      ResumedCommits(stream, position, offsets, commits0, commits, acked, attempt.acked);
    }

    lemma Onward(start: Table<V>, letters: seq<Message>, offsets: seq<int>, stream: seq<Message>, acked: nat,
                 received: nat, table0: Table<V>, letters0: seq<Message>, commits0: seq<int>, more: nat, done: nat,
                 frontier: nat, committed: nat)
      requires acked <= received <= |stream|
      requires table0 == DeliverAll(start, stream[..acked], decode)
      requires letters0 == letters + Poison(stream[..acked], decode)
      requires Committed(offsets, commits0, stream[..acked])
      requires done <= more <= received - acked && frontier == acked + more && committed == acked + done
      requires table == DeliverAll(table0, stream[acked..received][..more], decode)
      requires deadLetters == letters0 + Poison(stream[acked..received][..more], decode)
      requires Committed(commits0, commits, stream[acked..received][..done])
      ensures Progress(start, letters, offsets, stream, frontier, committed)
    {
      PartUpTo(stream, acked, received, more, frontier);
      PartUpTo(stream, acked, received, done, committed);
      DeliveredOnward(start, letters, stream[..acked], stream[acked..received][..more], stream[..frontier], table0,
                      table, letters0, deadLetters, decode);
      TrailOnward(offsets, commits0, commits, stream[..acked], stream[acked..received][..done], stream[..committed]);
    }
  }

  // The offsets committed beyond `offsets` are those of the messages in `handled`.
  ghost predicate Committed(offsets: seq<int>, commits: seq<int>, handled: seq<Message>) {
    offsets <= commits && CommitTrail(commits[|offsets|..], handled)
  }

  lemma SliceOfRest(stream: seq<Message>, from: nat, n: nat, to: nat)
    requires from + n == to <= |stream|
    ensures stream[from..][..n] == stream[from..to]
    ensures stream[..from] + stream[from..][..n] == stream[..to]
  {
  }

  lemma ResumedState<V>(stream: seq<Message>, position: nat, start: Table<V>, table0: Table<V>, table1: Table<V>,
                        letters: seq<Message>, letters0: seq<Message>, letters1: seq<Message>,
                        attempts: seq<Attempt>, attempt: Attempt, frontier: nat, decode: Decoder<V>)
    requires position <= attempt.acked <= attempt.frontier == position + frontier <= |stream|
    requires table1 == DeliverAll(table0, stream[position..][..frontier], decode)
    requires letters1 == letters0 + Poison(stream[position..][..frontier], decode)
    requires AttemptsFrom(0, attempts, |stream|)
    requires (table0, position) == AfterAttempts(start, stream, 0, attempts, decode)
    requires letters0 == letters + Letters(stream, 0, attempts, decode)
    ensures AttemptsFrom(0, attempts + [attempt], |stream|)
    ensures (table1, attempt.acked) == AfterAttempts(start, stream, 0, attempts + [attempt], decode)
    ensures letters1 == letters + Letters(stream, 0, attempts + [attempt], decode)
  {
    SliceOfRest(stream, position, frontier, attempt.frontier);
    OneMoreAttempt(start, stream, 0, attempts, attempt, decode);
    CommittedLast(start, stream, 0, attempts, decode);
    OneMoreLetters(stream, 0, attempts, attempt, position, decode);
  }

  lemma ResumedCommits(stream: seq<Message>, position: nat, offsets: seq<int>, commits0: seq<int>, commits: seq<int>,
                       acked: nat, to: nat)
    requires position + acked == to <= |stream|
    requires Committed(offsets, commits0, stream[..position])
    requires Committed(commits0, commits, stream[position..][..acked])
    ensures Committed(offsets, commits, stream[..to])
  {
    SliceOfRest(stream, position, acked, to);
    TrailOnward(offsets, commits0, commits, stream[..position], stream[position..][..acked], stream[..to]);
  }

  lemma PartUpTo(stream: seq<Message>, from: nat, received: nat, n: nat, to: nat)
    requires from + n == to <= received <= |stream|
    ensures stream[from..received][..n] == stream[from..to]
    ensures stream[..from] + stream[from..to] == stream[..to]
  {
  }

  lemma DeliveredOnward<V>(start: Table<V>, letters: seq<Message>, head: seq<Message>, part: seq<Message>,
                           all: seq<Message>, table0: Table<V>, table: Table<V>, letters0: seq<Message>,
                           deadLetters: seq<Message>, decode: Decoder<V>)
    requires all == head + part
    requires table0 == DeliverAll(start, head, decode) && letters0 == letters + Poison(head, decode)
    requires table == DeliverAll(table0, part, decode) && deadLetters == letters0 + Poison(part, decode)
    ensures table == DeliverAll(start, all, decode) && deadLetters == letters + Poison(all, decode)
  {
    DeliverConcatenation(start, head, part, decode);
  }

  lemma TrailOnward(offsets: seq<int>, commits0: seq<int>, commits: seq<int>, head: seq<Message>, part: seq<Message>,
                    all: seq<Message>)
    requires all == head + part
    requires Committed(offsets, commits0, head) && Committed(commits0, commits, part)
    ensures Committed(offsets, commits, all)
  {
    TrailsJoin(commits0[|offsets|..], head, commits[|commits0|..], part);
    JoinGrowth(offsets, commits0, commits);
  }

  lemma JoinGrowth(a: seq<int>, b: seq<int>, c: seq<int>)
    requires a <= b && b <= c
    ensures b[|a|..] + c[|b|..] == c[|a|..]
  {
  }

  datatype Event = Receive | Linger | Drain

  // How many messages are received until the first request to drain.
  function Received(events: seq<Event>, available: nat): nat {
    if events == [] then 0
    else
      var init := events[..|events| - 1];
      var n := Received(init, available);
      if Drain !in init && events[|events| - 1] == Receive && n < available then n + 1 else n
  }

  lemma {:induction false} ReceivedGrows(events: seq<Event>, i: nat, available: nat)
    requires i <= |events|
    ensures Received(events[..i], available) <= Received(events, available)
  {
    if i == |events| {
      assert events[..i] == events;
    } else {
      var init := events[..|events| - 1];
      assert init[..i] == events[..i];
      ReceivedGrows(init, i, available);
    }
  }

  lemma NextReceived(events: seq<Event>, i: nat, available: nat)
    requires i < |events| && Drain !in events[..i]
    ensures var received := Received(events[..i], available);
            && Received(events[..i + 1], available)
               == (if events[i] == Receive && received < available then received + 1 else received)
            && Received(events[..i + 1], available) <= Received(events, available)
    ensures events[i] in events && (events[i] != Drain ==> Drain !in events[..i + 1])
    ensures events[i] == Drain ==> Received(events, available) == Received(events[..i + 1], available)
  {
    assert events[..i + 1][..i] == events[..i];
    ReceivedGrows(events, i + 1, available);
    if events[i] == Drain {
      ReceivedStops(events, i + 1, available);
    }
  }

  // Those are the requests to receive before the first one to drain, as far as there are messages.
  lemma {:induction false} ReceivedAre(events: seq<Event>, available: nat)
    ensures var asked := set i | 0 <= i < |events| && events[i] == Receive && Drain !in events[..i];
            Received(events, available) == if |asked| < available then |asked| else available
  {
    var asked := set i | 0 <= i < |events| && events[i] == Receive && Drain !in events[..i];
    if events != [] {
      var init := events[..|events| - 1];
      var before := set i | 0 <= i < |init| && init[i] == Receive && Drain !in init[..i];
      ReceivedAre(init, available);
      assert forall i :: 0 <= i < |init| ==> events[..i] == init[..i];
      if events[|events| - 1] == Receive && Drain !in init {
        assert asked == before + {|init|};
      } else {
        assert asked == before;
      }
    }
  }

  lemma {:induction false} ReceivedStops(events: seq<Event>, i: nat, available: nat)
    requires i <= |events| && Drain in events[..i]
    ensures Received(events, available) == Received(events[..i], available)
  {
    if i == |events| {
      assert events[..i] == events;
    } else {
      var init := events[..|events| - 1];
      assert init[..i] == events[..i];
      ReceivedStops(init, i, available);
    }
  }

  lemma TrailsJoin(a: seq<int>, handledA: seq<Message>, b: seq<int>, handledB: seq<Message>)
    requires CommitTrail(a, handledA) && CommitTrail(b, handledB)
    ensures CommitTrail(a + b, handledA + handledB)
  {
    var trail, all := a + b, handledA + handledB;
    forall i | 0 <= i < |trail|
      ensures exists m :: m in all && trail[i] == m.offset + 1
    {
      if i < |a| {
        var m :| m in handledA && a[i] == m.offset + 1;
        assert m in all;
      } else {
        var m :| m in handledB && b[i - |a|] == m.offset + 1;
        assert m in all;
      }
    }
    if InOrder(all) {
      TrailsAscend(a, handledA, b, handledB);
    }
  }

  lemma CommitsAscend(all: seq<Message>, split: nat, c: int, d: int)
    requires InOrder(all) && split <= |all|
    requires exists m :: m in all[..split] && c == m.offset + 1
    requires exists m :: m in all[split..] && d == m.offset + 1
    ensures c < d
  {
    var m :| m in all[..split] && c == m.offset + 1;
    var n :| n in all[split..] && d == n.offset + 1;
    var i :| 0 <= i < split && all[i] == m;
    var j :| 0 <= j < |all| - split && all[split..][j] == n;
    assert all[split + j] == n;
  }

  lemma AscendingJoin(a: seq<int>, b: seq<int>)
    requires Ascending(a) && Ascending(b) && forall i, j :: 0 <= i < |a| && 0 <= j < |b| ==> a[i] < b[j]
    ensures Ascending(a + b)
  {
  }

  lemma TrailsAscend(a: seq<int>, handledA: seq<Message>, b: seq<int>, handledB: seq<Message>)
    requires CommitTrail(a, handledA) && CommitTrail(b, handledB) && InOrder(handledA + handledB)
    ensures Ascending(a + b)
  {
    var all := handledA + handledB;
    assert all[..|handledA|] == handledA && all[|handledA|..] == handledB;
    assert Ascending(a) by {
      PartInOrder(all, 0, |handledA|);
      assert all[0..|handledA|] == handledA;
    }
    assert Ascending(b) by {
      PartInOrder(all, |handledA|, |all|);
      assert all[|handledA|..|all|] == handledB;
    }
    forall i, j | 0 <= i < |a| && 0 <= j < |b|
      ensures a[i] < b[j]
    {
      CommitsAscend(all, |handledA|, a[i], b[j]);
    }
    AscendingJoin(a, b);
  }

  lemma HeadOfRest(before: seq<Message>, acked: nat, n: nat)
    requires acked + n <= |before|
    ensures before[acked..][..n] == before[acked..acked + n]
    ensures InOrder(before) ==> InOrder(before[acked..][..n])
  {
  }

  lemma RestOfRest(before: seq<Message>, acked: nat, n: nat)
    requires 0 < n && acked + n <= |before|
    ensures before[acked..][n..] == before[acked + n..]
    ensures before[acked..][n - 1] == before[acked + n - 1]
  {
  }

  lemma CommitsGrow(offsets: seq<int>, commits0: seq<int>, before: seq<Message>, acked: nat, to: nat)
    requires acked < to <= |before| && Committed(offsets, commits0, before[..acked])
    ensures Committed(offsets, commits0 + [before[to - 1].offset + 1], before[..to])
  {
    var c := before[to - 1].offset + 1;
    TrailGrows(commits0[|offsets|..], before[..acked], before[acked..to]);
    assert (commits0 + [c])[|offsets|..] == commits0[|offsets|..] + [c];
    JoinPrefix(before, acked, to);
  }

  lemma OneDeadLetter<V>(before: seq<Message>, acked: nat, done: nat, table: Table<V>, decode: Decoder<V>)
    requires acked < |before| && done <= 1 && !Decodes(before[acked], decode)
    ensures DeliverAll(table, before[acked..acked + done], decode) == table
    ensures Poison(before[acked..acked + done], decode) == before[acked..][..done]
  {
    var chunk := before[acked..acked + done];
    if done == 1 {
      assert chunk == [before[acked]];
      assert chunk[..0] == [];
    }
  }
}
