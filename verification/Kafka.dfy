/** What delivering a partition's messages does to the records, and why redelivery does no harm
    (crates/ketebe-server/src/kafka_ingestion.rs). */
module Kafka {
  import opened Wrappers
  import opened Collections
  import opened Store

  datatype Message = Message(partition: int, offset: int, payload: Option<string>)

  // The change a decoded message makes to one record; a deletion has no value.
  datatype Mutation<V> = Mutation(id: RecordId, value: Option<V>)

  datatype DecodeError = UnsupportedEnvelopeVersion(version: nat) | InvalidJson | InvalidEnvelope

  type Decoder<!V> = string -> Result<Mutation<V>, DecodeError>

  type Table<V> = map<RecordId, V>

  predicate Decodes<V>(m: Message, decode: Decoder<V>) {
    m.payload.Some? && decode(m.payload.value).Ok?
  }

  function Change<V>(table: Table<V>, c: Mutation<V>): Table<V> {
    match c.value
    case Some(v) => table[c.id := v]
    case None => table - {c.id}
  }

  // Handling one message: applied if it decodes, without effect on the records otherwise.
  function Deliver<V>(table: Table<V>, m: Message, decode: Decoder<V>): Table<V> {
    if Decodes(m, decode) then Change(table, decode(m.payload.value).value) else table
  }

  function DeliverAll<V>(table: Table<V>, messages: seq<Message>, decode: Decoder<V>): Table<V> {
    if messages == [] then table
    else Deliver(DeliverAll(table, messages[..|messages| - 1], decode), messages[|messages| - 1], decode)
  }

  // The messages that go to the dead-letter topic.
  function Poison<V>(messages: seq<Message>, decode: Decoder<V>): seq<Message> {
    if messages == [] then []
    else
      var last := messages[|messages| - 1];
      Poison(messages[..|messages| - 1], decode) + if Decodes(last, decode) then [] else [last]
  }

  lemma {:induction false} DeliverConcatenation<V>(table: Table<V>, a: seq<Message>, b: seq<Message>,
                                                   decode: Decoder<V>)
    ensures DeliverAll(table, a + b, decode) == DeliverAll(DeliverAll(table, a, decode), b, decode)
    ensures Poison(a + b, decode) == Poison(a, decode) + Poison(b, decode)
  {
    if b == [] {
      assert a + b == a;
    } else {
      assert (a + b)[..|a + b| - 1] == a + b[..|b| - 1];
      DeliverConcatenation(table, a, b[..|b| - 1], decode);
    }
  }

  lemma {:induction false} PoisonCount<V>(messages: seq<Message>, decode: Decoder<V>)
    ensures |Poison(messages, decode)| <= |messages|
    ensures (forall m :: m in messages ==> Decodes(m, decode)) ==> Poison(messages, decode) == []
  {
    if messages != [] {
      PoisonCount(messages[..|messages| - 1], decode);
    }
  }

  // ---------------------------------------------------------------- redelivery

  // One run of a consumer: it starts at the committed position, handles the messages up to
  // `frontier` and gets as far as committing `acked`; both may lie anywhere ahead of the start.
  datatype Attempt = Attempt(frontier: nat, acked: nat)

  predicate AttemptsFrom(start: nat, attempts: seq<Attempt>, end: nat)
    decreases |attempts|
  {
    if attempts == [] then start <= end
    else
      start <= attempts[0].acked <= attempts[0].frontier <= end
      && AttemptsFrom(attempts[0].acked, attempts[1..], end)
  }

  // The records after a series of attempts, and the position committed by the last one.
  function AfterAttempts<V>(table: Table<V>, stream: seq<Message>, start: nat, attempts: seq<Attempt>,
                            decode: Decoder<V>): (Table<V>, nat)
    requires AttemptsFrom(start, attempts, |stream|)
    decreases |attempts|
  {
    if attempts == [] then (table, start)
    else
      var next := DeliverAll(table, stream[start..attempts[0].frontier], decode);
      AfterAttempts(next, stream, attempts[0].acked, attempts[1..], decode)
  }

  // What a series of attempts sends to the dead-letter topic.
  function Letters<V>(stream: seq<Message>, start: nat, attempts: seq<Attempt>, decode: Decoder<V>): seq<Message>
    requires AttemptsFrom(start, attempts, |stream|)
    decreases |attempts|
  {
    if attempts == [] then []
    else
      Poison(stream[start..attempts[0].frontier], decode)
      + Letters(stream, attempts[0].acked, attempts[1..], decode)
  }

  lemma {:induction false} PoisonAre<V>(messages: seq<Message>, decode: Decoder<V>)
    ensures forall m :: m in Poison(messages, decode) <==> m in messages && !Decodes(m, decode)
  {
    if messages != [] {
      PoisonAre(messages[..|messages| - 1], decode);
      assert messages == messages[..|messages| - 1] + [messages[|messages| - 1]];
    }
  }

  lemma PoisonInSlice<V>(stream: seq<Message>, lo: nat, hi: nat, i: nat, decode: Decoder<V>)
    requires lo <= i < hi <= |stream| && !Decodes(stream[i], decode)
    ensures stream[i] in Poison(stream[lo..hi], decode)
  {
    assert stream[lo..hi][i - lo] == stream[i];
    PoisonAre(stream[lo..hi], decode);
  }

  // Only messages that do not decode are sent there, and each one that has been committed has been.
  lemma {:induction false} LettersAre<V>(table: Table<V>, stream: seq<Message>, start: nat, attempts: seq<Attempt>,
                                         decode: Decoder<V>)
    requires AttemptsFrom(start, attempts, |stream|)
    ensures forall m :: m in Letters(stream, start, attempts, decode) ==> m in stream && !Decodes(m, decode)
    ensures forall i :: start <= i < AfterAttempts(table, stream, start, attempts, decode).1
                        && i < |stream| && !Decodes(stream[i], decode) ==>
              stream[i] in Letters(stream, start, attempts, decode)
    decreases |attempts|
  {
    if attempts != [] {
      var first := attempts[0];
      var next := DeliverAll(table, stream[start..first.frontier], decode);
      LettersAre(next, stream, first.acked, attempts[1..], decode);
      PoisonAre(stream[start..first.frontier], decode);
      forall i | start <= i < first.acked && !Decodes(stream[i], decode)
        ensures stream[i] in Poison(stream[start..first.frontier], decode)
      {
        PoisonInSlice(stream, start, first.frontier, i, decode);
      }
    }
  }

  lemma {:induction false} OneMoreAttempt<V>(table: Table<V>, stream: seq<Message>, start: nat, attempts: seq<Attempt>,
                                            a: Attempt, decode: Decoder<V>)
    requires AttemptsFrom(start, attempts, |stream|)
    requires AfterAttempts(table, stream, start, attempts, decode).1 <= a.acked <= a.frontier <= |stream|
    ensures AttemptsFrom(start, attempts + [a], |stream|)
    ensures var (after, committed) := AfterAttempts(table, stream, start, attempts, decode);
            AfterAttempts(table, stream, start, attempts + [a], decode)
            == (DeliverAll(after, stream[committed..a.frontier], decode), a.acked)
    decreases |attempts|
  {
    if attempts == [] {
      assert [a][1..] == [] && attempts + [a] == [a];
    } else {
      var first := attempts[0];
      assert (attempts + [a])[1..] == attempts[1..] + [a];
      OneMoreAttempt(DeliverAll(table, stream[start..first.frontier], decode), stream, first.acked, attempts[1..], a,
                     decode);
    }
  }

  lemma {:induction false} OneMoreLetters<V>(stream: seq<Message>, start: nat, attempts: seq<Attempt>, a: Attempt,
                                            committed: nat, decode: Decoder<V>)
    requires AttemptsFrom(start, attempts, |stream|) && AttemptsFrom(start, attempts + [a], |stream|)
    requires committed == if attempts == [] then start else attempts[|attempts| - 1].acked
    ensures committed <= a.frontier <= |stream|
    ensures Letters(stream, start, attempts + [a], decode)
            == Letters(stream, start, attempts, decode) + Poison(stream[committed..a.frontier], decode)
    decreases |attempts|
  {
    if attempts == [] {
      assert [a][1..] == [] && attempts + [a] == [a];
    } else {
      assert (attempts + [a])[1..] == attempts[1..] + [a];
      OneMoreLetters(stream, attempts[0].acked, attempts[1..], a, committed, decode);
    }
  }

  lemma {:induction false} CommittedLast<V>(table: Table<V>, stream: seq<Message>, start: nat, attempts: seq<Attempt>,
                                           decode: Decoder<V>)
    requires AttemptsFrom(start, attempts, |stream|)
    ensures AfterAttempts(table, stream, start, attempts, decode).1
            == if attempts == [] then start else attempts[|attempts| - 1].acked
    decreases |attempts|
  {
    if attempts != [] {
      var first := attempts[0];
      CommittedLast(DeliverAll(table, stream[start..first.frontier], decode), stream, first.acked, attempts[1..],
                    decode);
    }
  }

  predicate Touches<V>(messages: seq<Message>, id: RecordId, decode: Decoder<V>) {
    exists i :: 0 <= i < |messages| && Decodes(messages[i], decode) && decode(messages[i].payload.value).value.id == id
  }

  ghost predicate SameAt<V>(a: Table<V>, b: Table<V>, id: RecordId) {
    (id in a <==> id in b) && (id in a && id in b ==> a[id] == b[id])
  }

  // What a message says about a record does not depend on what was there before.
  lemma {:induction false} LastTouchDecides<V>(a: Table<V>, b: Table<V>, messages: seq<Message>, id: RecordId,
                                               decode: Decoder<V>)
    requires Touches(messages, id, decode) || SameAt(a, b, id)
    ensures SameAt(DeliverAll(a, messages, decode), DeliverAll(b, messages, decode), id)
  {
    if messages != [] {
      var init, last := messages[..|messages| - 1], messages[|messages| - 1];
      if !(Decodes(last, decode) && decode(last.payload.value).value.id == id) {
        if Touches(messages, id, decode) {
          var i :| 0 <= i < |messages| && Decodes(messages[i], decode)
                   && decode(messages[i].payload.value).value.id == id;
          assert init[i] == messages[i];
        }
        LastTouchDecides(a, b, init, id, decode);
      }
    }
  }

  lemma {:induction false} UntouchedStays<V>(table: Table<V>, messages: seq<Message>, id: RecordId, decode: Decoder<V>)
    requires !Touches(messages, id, decode)
    ensures SameAt(DeliverAll(table, messages, decode), table, id)
  {
    if messages != [] {
      var init, last := messages[..|messages| - 1], messages[|messages| - 1];
      assert forall i :: 0 <= i < |init| ==> init[i] == messages[i];
      UntouchedStays(table, init, id, decode);
    }
  }

  // A decoded message sets or removes its record and leaves all others alone.
  lemma ChangeMeans<V>(table: Table<V>, c: Mutation<V>)
    ensures var t := Change(table, c);
            && (c.value.Some? ==> c.id in t && t[c.id] == c.value.value) && (c.value.None? ==> c.id !in t)
            && forall id :: id != c.id ==> SameAt(t, table, id)
  {
  }

  // After any messages a record is what the last decoded message that mentions it has made of it.
  lemma {:induction false} DeliverAllMeans<V>(table: Table<V>, messages: seq<Message>, i: nat, decode: Decoder<V>)
    requires i < |messages| && Decodes(messages[i], decode)
    requires !Touches(messages[i + 1..], decode(messages[i].payload.value).value.id, decode)
    ensures var t, c := DeliverAll(table, messages, decode), decode(messages[i].payload.value).value;
            (c.value.Some? ==> c.id in t && t[c.id] == c.value.value) && (c.value.None? ==> c.id !in t)
  {
    var head, rest := messages[..i + 1], messages[i + 1..];
    assert messages == head + rest && head[..i] == messages[..i];
    DeliverConcatenation(table, head, rest, decode);
    UntouchedStays(DeliverAll(table, head, decode), rest, decode(messages[i].payload.value).value.id, decode);
  }

  // A record that no uncommitted message mentions already has its final content.
  ghost predicate SettledBelow<V>(table: Table<V>, stream: seq<Message>, committed: nat, final: Table<V>,
                                  decode: Decoder<V>)
    requires committed <= |stream|
  {
    forall id :: !Touches(stream[committed..], id, decode) ==> SameAt(table, final, id)
  }

  lemma AttemptSettles<V>(table: Table<V>, initial: Table<V>, stream: seq<Message>, start: nat, a: Attempt,
                          decode: Decoder<V>)
    requires start <= a.acked <= a.frontier <= |stream|
    requires SettledBelow(table, stream, start, DeliverAll(initial, stream, decode), decode)
    ensures SettledBelow(DeliverAll(table, stream[start..a.frontier], decode), stream, a.acked,
                         DeliverAll(initial, stream, decode), decode)
  {
    var final := DeliverAll(initial, stream, decode);
    forall id | !Touches(stream[a.acked..], id, decode)
      ensures SameAt(DeliverAll(table, stream[start..a.frontier], decode), final, id)
    {
      SettledForOne(table, initial, stream, start, a, id, decode);
    }
  }

  lemma TouchesConcatenation<V>(a: seq<Message>, b: seq<Message>, id: RecordId, decode: Decoder<V>)
    ensures Touches(a + b, id, decode) <==> Touches(a, id, decode) || Touches(b, id, decode)
  {
    forall i | 0 <= i < |a + b|
      ensures (a + b)[i] == if i < |a| then a[i] else b[i - |a|]
    {
    }
    if Touches(a, id, decode) {
      var i :| 0 <= i < |a| && Decodes(a[i], decode) && decode(a[i].payload.value).value.id == id;
      assert (a + b)[i] == a[i];
    }
    if Touches(b, id, decode) {
      var i :| 0 <= i < |b| && Decodes(b[i], decode) && decode(b[i].payload.value).value.id == id;
      assert (a + b)[|a| + i] == b[i];
    }
  }

  // The stream is `head`, delivered before; `mid`, delivered now and then committed; and `tail`, of
  // which `extra` is delivered now but not committed.
  lemma SettledParts<V>(table: Table<V>, initial: Table<V>, head: seq<Message>, mid: seq<Message>, tail: seq<Message>,
                        extra: seq<Message>, id: RecordId, decode: Decoder<V>)
    requires !Touches(tail, id, decode) && !Touches(extra, id, decode)
    requires !Touches(mid, id, decode) ==> SameAt(table, DeliverAll(initial, head + (mid + tail), decode), id)
    ensures SameAt(DeliverAll(table, mid + extra, decode), DeliverAll(initial, head + (mid + tail), decode), id)
  {
    var before := DeliverAll(initial, head, decode);
    DeliverConcatenation(initial, head, mid + tail, decode);
    DeliverConcatenation(before, mid, tail, decode);
    DeliverConcatenation(table, mid, extra, decode);
    UntouchedStays(DeliverAll(before, mid, decode), tail, id, decode);
    UntouchedStays(DeliverAll(table, mid, decode), extra, id, decode);
    if Touches(mid, id, decode) {
      LastTouchDecides(table, before, mid, id, decode);
    } else {
      UntouchedStays(table, mid, id, decode);
    }
  }

  lemma SettledForOne<V>(table: Table<V>, initial: Table<V>, stream: seq<Message>, start: nat, a: Attempt,
                         id: RecordId, decode: Decoder<V>)
    requires start <= a.acked <= a.frontier <= |stream|
    requires SettledBelow(table, stream, start, DeliverAll(initial, stream, decode), decode)
    requires !Touches(stream[a.acked..], id, decode)
    ensures SameAt(DeliverAll(table, stream[start..a.frontier], decode), DeliverAll(initial, stream, decode), id)
  {
    var head, mid, tail := stream[..start], stream[start..a.acked], stream[a.acked..];
    var extra := stream[a.acked..a.frontier];
    JoinSlices(stream, start, a.acked, a.frontier);
    JoinSuffix(stream, start, a.acked);
    JoinSuffix(stream, a.acked, a.frontier);
    SplitAt(stream, start);
    TouchesConcatenation(mid, tail, id, decode);
    TouchesConcatenation(extra, stream[a.frontier..], id, decode);
    SettledParts(table, initial, head, mid, tail, extra, id, decode);
  }

  lemma {:induction false} AttemptsSettle<V>(table: Table<V>, initial: Table<V>, stream: seq<Message>, start: nat,
                                             attempts: seq<Attempt>, decode: Decoder<V>)
    requires AttemptsFrom(start, attempts, |stream|)
    requires SettledBelow(table, stream, start, DeliverAll(initial, stream, decode), decode)
    ensures var (after, committed) := AfterAttempts(table, stream, start, attempts, decode);
            committed <= |stream| && SettledBelow(after, stream, committed, DeliverAll(initial, stream, decode), decode)
    decreases |attempts|
  {
    if attempts != [] {
      AttemptSettles(table, initial, stream, start, attempts[0], decode);
      AttemptsSettle(DeliverAll(table, stream[start..attempts[0].frontier], decode), initial, stream,
                     attempts[0].acked, attempts[1..], decode);
    }
  }

  lemma SameEverywhere<V>(a: Table<V>, b: Table<V>)
    requires forall id :: SameAt(a, b, id)
    ensures a == b
  {
    assert forall id :: id in a ==> SameAt(a, b, id);
    assert forall id :: id in b ==> SameAt(a, b, id);
  }

  // At-least-once delivery converges: after any series of attempts, each resuming at the committed
  // position and stopping anywhere, one attempt that completes leaves the records as if every
  // message had been delivered once, in order.
  lemma AtLeastOnceConverges<V>(initial: Table<V>, stream: seq<Message>, attempts: seq<Attempt>, decode: Decoder<V>)
    requires AttemptsFrom(0, attempts, |stream|)
    ensures var (after, committed) := AfterAttempts(initial, stream, 0, attempts, decode);
            && committed <= |stream|
            && DeliverAll(after, stream[committed..], decode) == DeliverAll(initial, stream, decode)
  {
    var final := DeliverAll(initial, stream, decode);
    assert SettledBelow(initial, stream, 0, final, decode) by {
      assert stream[0..] == stream;
      forall id | !Touches(stream, id, decode)
        ensures SameAt(initial, final, id)
      {
        UntouchedStays(initial, stream, id, decode);
      }
    }
    AttemptsSettle(initial, initial, stream, 0, attempts, decode);
    var (after, committed) := AfterAttempts(initial, stream, 0, attempts, decode);
    AttemptSettles(after, initial, stream, committed, Attempt(|stream|, |stream|), decode);
    assert stream[committed..|stream|] == stream[committed..];
    assert stream[|stream|..] == [];
    SameEverywhere(DeliverAll(after, stream[committed..], decode), final);
  }

  // ---------------------------------------------------------------- a partition that changes hands

  // A revoked partition is flushed when its consumer gets round to it: here another consumer has taken
  // over and come as far as `c` when the one before, which had committed up to `a`, flushes what it
  // still holds, up to `d`.
  function AfterLateFlush<V>(initial: Table<V>, stream: seq<Message>, a: nat, c: nat, d: nat, decode: Decoder<V>)
    : Table<V>
    requires a <= c <= |stream| && a <= d <= |stream|
  {
    DeliverAll(DeliverAll(initial, stream[..c], decode), stream[a..d], decode)
  }

  lemma PrefixIsSettled<V>(initial: Table<V>, stream: seq<Message>, a: nat, c: nat, decode: Decoder<V>)
    requires a <= c <= |stream|
    ensures SettledBelow(DeliverAll(initial, stream[..c], decode), stream, a, DeliverAll(initial, stream, decode),
                         decode)
  {
    var table := DeliverAll(initial, stream[..c], decode);
    SplitAt(stream, c);
    DeliverConcatenation(initial, stream[..c], stream[c..], decode);
    forall id | !Touches(stream[a..], id, decode)
      ensures SameAt(table, DeliverAll(initial, stream, decode), id)
    {
      JoinSuffix(stream, a, c);
      TouchesConcatenation(stream[a..c], stream[c..], id, decode);
      UntouchedStays(table, stream[c..], id, decode);
    }
  }

  // Whoever goes on to the end from where everything before is settled completes the records.
  lemma SettledCompletes<V>(table: Table<V>, initial: Table<V>, stream: seq<Message>, c: nat, decode: Decoder<V>)
    requires c <= |stream| && SettledBelow(table, stream, c, DeliverAll(initial, stream, decode), decode)
    ensures DeliverAll(table, stream[c..], decode) == DeliverAll(initial, stream, decode)
  {
    AttemptSettles(table, initial, stream, c, Attempt(|stream|, |stream|), decode);
    assert stream[c..|stream|] == stream[c..] && stream[|stream|..] == [];
    SameEverywhere(DeliverAll(table, stream[c..], decode), DeliverAll(initial, stream, decode));
  }

  // A late flush that reaches at least as far as the other consumer has come is one attempt more.
  lemma LateFlushConverges<V>(initial: Table<V>, stream: seq<Message>, a: nat, c: nat, d: nat, decode: Decoder<V>)
    requires a <= c <= |stream| && a <= d <= |stream| && (d == a || d >= c)
    ensures DeliverAll(AfterLateFlush(initial, stream, a, c, d, decode), stream[c..], decode)
            == DeliverAll(initial, stream, decode)
  {
    var table := DeliverAll(initial, stream[..c], decode);
    if d == a {
      assert stream[a..d] == [];
      PrefixIsSettled(initial, stream, c, c, decode);
      SettledCompletes(table, initial, stream, c, decode);
    } else {
      PrefixIsSettled(initial, stream, a, c, decode);
      AttemptSettles(table, initial, stream, a, Attempt(d, c), decode);
      SettledCompletes(AfterLateFlush(initial, stream, a, c, d, decode), initial, stream, c, decode);
    }
  }

  // If the late commit counts, whoever resumes there repairs the records, however far the other
  // consumer has gone on in the meantime.
  lemma LateCommitConverges<V>(initial: Table<V>, stream: seq<Message>, a: nat, c: nat, d: nat, e: nat,
                               decode: Decoder<V>)
    requires a <= d <= c <= e <= |stream|
    ensures DeliverAll(DeliverAll(AfterLateFlush(initial, stream, a, c, d, decode), stream[c..e], decode),
                       stream[d..], decode)
            == DeliverAll(initial, stream, decode)
  {
    var table := DeliverAll(initial, stream[..c], decode);
    var flushed := AfterLateFlush(initial, stream, a, c, d, decode);
    PrefixIsSettled(initial, stream, a, c, decode);
    AttemptSettles(table, initial, stream, a, Attempt(d, d), decode);
    forall id | !Touches(stream[d..], id, decode)
      ensures SameAt(DeliverAll(flushed, stream[c..e], decode), DeliverAll(initial, stream, decode), id)
    {
      JoinSuffix(stream, d, c);
      JoinSuffix(stream, c, e);
      TouchesConcatenation(stream[d..c], stream[c..], id, decode);
      TouchesConcatenation(stream[c..e], stream[e..], id, decode);
      UntouchedStays(flushed, stream[c..e], id, decode);
    }
    SettledCompletes(DeliverAll(flushed, stream[c..e], decode), initial, stream, d, decode);
  }

  // Two messages for one record among others that say nothing: the first is the last one flushed late,
  // the second the last one that the other consumer had applied.
  function Overtaken(n: nat, c: nat, d: nat): (stream: seq<Message>)
    requires 0 < d < c <= n
    ensures |stream| == n
  {
    seq(n, i requires 0 <= i < n =>
      Message(0, i, if i == d - 1 then Some("old") else if i == c - 1 then Some("new") else None))
  }

  function OldOrNew<V>(x: V, y: V): Decoder<V> {
    payload => Ok(Mutation.Mutation(Unsigned(0), Some(if payload == "old" then x else y)))
  }

  lemma {:induction false} SilentStays<V>(table: Table<V>, messages: seq<Message>, decode: Decoder<V>)
    requires forall i :: 0 <= i < |messages| ==> messages[i].payload.None?
    ensures DeliverAll(table, messages, decode) == table
  {
    if messages != [] {
      SilentStays(table, messages[..|messages| - 1], decode);
    }
  }

  lemma LastSpeaks<V>(table: Table<V>, messages: seq<Message>, decode: Decoder<V>, v: V)
    requires messages != [] && Decodes(messages[|messages| - 1], decode)
    requires decode(messages[|messages| - 1].payload.value).value == Mutation.Mutation(Unsigned(0), Some(v))
    ensures DeliverAll(table, messages, decode)
            == DeliverAll(table, messages[..|messages| - 1], decode)[Unsigned(0) := v]
  {
  }

  // A late flush that ends before undoes the second message for good.
  lemma LateFlushUndoes<V>(n: nat, a: nat, c: nat, d: nat, x: V, y: V)
    requires a < d < c <= n && x != y
    ensures var stream, decode := Overtaken(n, c, d), OldOrNew(x, y);
            DeliverAll(AfterLateFlush(map[], stream, a, c, d, decode), stream[c..], decode)
            != DeliverAll(map[], stream, decode)
  {
    var stream, decode := Overtaken(n, c, d), OldOrNew(x, y);
    var table := DeliverAll(map[], stream[..c], decode);
    LastSpeaks(map[], stream[..c], decode, y);
    var flushed := DeliverAll(table, stream[a..d], decode);
    LastSpeaks(table, stream[a..d], decode, x);
    SilentStays(flushed, stream[c..], decode);
    SilentStays(table, stream[c..], decode);
    SplitAt(stream, c);
    DeliverConcatenation(map[], stream[..c], stream[c..], decode);
    assert flushed[Unsigned(0)] == x && table[Unsigned(0)] == y;
  }

  ghost predicate LateFlushIsHarmless<V(!new)>(stream: seq<Message>, a: nat, c: nat, d: nat) {
    a <= c <= |stream| && a <= d <= |stream| ==>
      forall initial: Table<V>, decode: Decoder<V> ::
        DeliverAll(AfterLateFlush(initial, stream, a, c, d, decode), stream[c..], decode)
        == DeliverAll(initial, stream, decode)
  }

  // If the late commit does not count, the other consumer ends with the right records, whatever the
  // messages, exactly if the late flush does nothing or reaches at least as far as that consumer.
  lemma LateFlushIsHarmlessIff<V(!new)>(n: nat, a: nat, c: nat, d: nat, x: V, y: V)
    requires a <= c <= n && a <= d <= n && x != y
    ensures (forall stream: seq<Message> :: |stream| == n ==> LateFlushIsHarmless<V>(stream, a, c, d))
            <==> d == a || d >= c
  {
    if d == a || d >= c {
      forall stream: seq<Message>, initial: Table<V>, decode: Decoder<V> | |stream| == n
        ensures DeliverAll(AfterLateFlush(initial, stream, a, c, d, decode), stream[c..], decode)
                == DeliverAll(initial, stream, decode)
      {
        LateFlushConverges(initial, stream, a, c, d, decode);
      }
    } else {
      LateFlushUndoes(n, a, c, d, x, y);
      assert !LateFlushIsHarmless<V>(Overtaken(n, c, d), a, c, d);
    }
  }
}
