/** A writer and a reader on one log channel at the same time, with no lock between them: the
    firmware writes with onerom_rtt_write, and the probe's reader works as onerom_rtt_read does
    (firmware/src/rtt.c).

    A step is one load or store of an offset, or the copy of one byte, and steps come in any order. The
    barriers around each copy are what lets a byte's copy and an offset's store be seen in the
    order they are made. */
module RttConcurrent {
  import opened Words
  import opened RttRing

  // `copied` are the positions in the record copied so far, in whatever order memcpy copies.
  datatype Writer = Between | Writing(record: seq<Byte>, copied: set<nat>)

  // `got` are the bytes copied so far of the `count` being taken.
  datatype Reader = Away | Reading(count: nat, got: map<nat, Byte>)

  // The last two fields are history: the records accepted, one after the other, and the bytes
  // handed to the reader's caller.
  datatype Channel = Channel(
    ring: seq<Byte>, writeOffset: nat, readOffset: nat,
    writer: Writer, reader: Reader,
    accepted: seq<Byte>, delivered: seq<Byte>)
  {
    predicate Shaped()
    {
      && writeOffset < |ring| && readOffset < |ring|
      && (writer.Writing? ==> |writer.record| < |ring|) && (reader.Reading? ==> reader.count < |ring|)
    }
  }

  datatype Event =
    | BeginWrite(record: seq<Byte>)
    | CopyIn(at: nat)
    | PublishWrite
    | BeginRead(maxLen: nat)
    | CopyOut(at: nat)
    | PublishRead

  function Least(a: nat, b: nat): nat { if a <= b then a else b }

  function Start(ring: seq<Byte>): Channel
    requires ring != []
  {
    Channel(ring, 0, 0, Between, Away, [], [])
  }

  // The bytes of a completed copy, in order.
  function Assembled(count: nat, got: map<nat, Byte>): seq<Byte>
    requires forall i: nat :: i < count ==> i in got
  {
    seq(count, i requires 0 <= i < count => got[i])
  }

  predicate Whole(count: nat, got: map<nat, Byte>) { forall i: nat :: i < count ==> i in got }

  predicate AllCopied(record: seq<Byte>, copied: set<nat>) { forall i: nat :: i < |record| ==> i in copied }

  function WriterStep(ch: Channel, event: Event): Channel
    requires ch.Shaped()
  {
    match (event, ch.writer)
    case (BeginWrite(record), Between) =>
      // The one sample of the reader's offset.
      if Avail(|ch.ring|, ch.writeOffset, ch.readOffset) < |record| then ch
      else ch.(writer := Writing(record, {}))
    case (CopyIn(at), Writing(record, copied)) =>
      if at < |record| then
        ch.(ring := ch.ring[Wrap(ch.writeOffset + at, |ch.ring|) := record[at]],
            writer := Writing(record, copied + {at}))
      else ch
    case (PublishWrite, Writing(record, copied)) =>
      if AllCopied(record, copied) then
        ch.(writeOffset := Wrap(ch.writeOffset + |record|, |ch.ring|), writer := Between,
            accepted := ch.accepted + record)
      else ch
    case (_, _) => ch
  }

  function ReaderStep(ch: Channel, event: Event): Channel
    requires ch.Shaped()
  {
    match (event, ch.reader)
    case (BeginRead(maxLen), Away) =>
      // The one sample of the writer's offset.
      var count := Least(Pending(|ch.ring|, ch.writeOffset, ch.readOffset), maxLen);
      if count == 0 then ch else ch.(reader := Reading(count, map[]))
    case (CopyOut(at), Reading(count, got)) =>
      if at < count then
        ch.(reader := Reading(count, got[at := ch.ring[Wrap(ch.readOffset + at, |ch.ring|)]]))
      else ch
    case (PublishRead, Reading(count, got)) =>
      if Whole(count, got) then
        ch.(readOffset := Wrap(ch.readOffset + count, |ch.ring|), reader := Away,
            delivered := ch.delivered + Assembled(count, got))
      else ch
    case (_, _) => ch
  }

  function Step(ch: Channel, event: Event): Channel
    requires ch.Shaped()
  {
    match event
    case BeginWrite(_) => WriterStep(ch, event)
    case CopyIn(_) => WriterStep(ch, event)
    case PublishWrite => WriterStep(ch, event)
    case _ => ReaderStep(ch, event)
  }

  // ---------------------------------------------------------------------------------------------
  // What every step keeps
  // ---------------------------------------------------------------------------------------------

  // Byte k of everything ever written lives at k modulo the size.
  predicate Stored(ring: seq<Byte>, bytes: seq<Byte>, from: nat)
    requires ring != []
  {
    forall k :: from <= k < |bytes| ==> Place(ring, k) == bytes[k]
  }

  function Place(ring: seq<Byte>, k: nat): Byte
    requires ring != []
  {
    ring[k % |ring|]
  }

  // The copied bytes of a record are where they belong, after what is already published.
  predicate InPlace(ring: seq<Byte>, published: nat, record: seq<Byte>, copied: set<nat>)
    requires ring != []
  {
    forall i: nat :: i in copied ==> i < |record| && Place(ring, published + i) == record[i]
  }

  // The bytes got are the next accepted ones.
  predicate Next(accepted: seq<Byte>, taken: nat, count: nat, got: map<nat, Byte>)
  {
    && taken + count <= |accepted|
    && forall i: nat :: i in got ==> i < count && got[i] == accepted[taken + i]
  }

  predicate Inv(ch: Channel)
  {
    var size, published, taken := |ch.ring|, |ch.accepted|, |ch.delivered|;
    && size > 0 && taken <= published < taken + size
    && ch.writeOffset == published % size && ch.readOffset == taken % size
    && ch.delivered == ch.accepted[..taken]
    && Stored(ch.ring, ch.accepted, taken)
    && (ch.writer.Writing? ==>
          && published + |ch.writer.record| < taken + size
          && InPlace(ch.ring, published, ch.writer.record, ch.writer.copied))
    && (ch.reader.Reading? ==> Next(ch.accepted, taken, ch.reader.count, ch.reader.got))
  }

  // Wrapping is counting modulo the size.
  lemma WrapIsMod(base: nat, i: nat, size: nat)
    requires size > 0 && i < size
    ensures Wrap(base % size + i, size) == (base + i) % size
  {
    DivMod(base, size);
    var q, r := base / size, base % size;
    MulSuccessor(q, size);
    MulCommutes(q, size);
    MulCommutes(q + 1, size);
    if r + i < size {
      ModIs(base + i, size, q, r + i);
    } else {
      ModIs(base + i, size, q + 1, r + i - size);
    }
  }

  // Bytes less than a buffer apart live in different places.
  lemma PlacesDiffer(a: nat, b: nat, size: nat)
    requires size > 0 && a < b < a + size
    ensures a % size != b % size
  {
    WrapIsMod(a, b - a, size);
  }

  lemma PendingIsUnread(published: nat, taken: nat, size: nat)
    requires size > 0 && taken <= published < taken + size
    ensures Pending(size, published % size, taken % size) == published - taken
  {
    WrapIsMod(taken, published - taken, size);
  }

  // A store somewhere else leaves byte k where it is.
  lemma StoredElsewhere(ring: seq<Byte>, k: nat, at: nat, byte: Byte)
    requires ring != [] && (k < at < k + |ring| || at < k < at + |ring|)
    ensures Place(ring[at % |ring| := byte], k) == Place(ring, k)
  {
    if k < at {
      PlacesDiffer(k, at, |ring|);
    } else {
      PlacesDiffer(at, k, |ring|);
    }
  }

  // Copying in one byte of a record leaves every unread byte, and every byte of the record
  // already copied, as it was.
  lemma CopyInKeeps(ring: seq<Byte>, bytes: seq<Byte>, taken: nat, record: seq<Byte>, copied: set<nat>, at: nat)
    requires ring != [] && taken <= |bytes| && |bytes| + |record| < taken + |ring| && at < |record|
    requires Stored(ring, bytes, taken) && InPlace(ring, |bytes|, record, copied)
    ensures var after := ring[(|bytes| + at) % |ring| := record[at]];
      Stored(after, bytes, taken) && InPlace(after, |bytes|, record, copied + {at})
  {
    var after := ring[(|bytes| + at) % |ring| := record[at]];
    forall k | taken <= k < |bytes|
      ensures Place(after, k) == bytes[k]
    {
      StoredElsewhere(ring, k, |bytes| + at, record[at]);
      assert Place(ring, k) == bytes[k];
    }
    forall i: nat | i in copied + {at}
      ensures i < |record| && Place(after, |bytes| + i) == record[i]
    {
      if i != at {
        assert i < |record| && Place(ring, |bytes| + i) == record[i];
        StoredElsewhere(ring, |bytes| + i, |bytes| + at, record[at]);
      }
    }
  }

  lemma BeginKeeps(ch: Channel, record: seq<Byte>)
    requires Inv(ch) && ch.writer.Between?
    ensures ch.Shaped() && Inv(Step(ch, BeginWrite(record)))
  {
    PendingIsUnread(|ch.accepted|, |ch.delivered|, |ch.ring|);
  }

  lemma CopyKeeps(ch: Channel, at: nat)
    requires Inv(ch) && ch.writer.Writing? && at < |ch.writer.record|
    ensures ch.Shaped() && Inv(Step(ch, CopyIn(at)))
  {
    WrapIsMod(|ch.accepted|, at, |ch.ring|);
    CopyInKeeps(ch.ring, ch.accepted, |ch.delivered|, ch.writer.record, ch.writer.copied, at);
  }

  lemma WriterKeeps(ch: Channel, event: Event)
    requires Inv(ch) && (event.BeginWrite? || event.CopyIn? || event.PublishWrite?)
    ensures ch.Shaped() && Inv(Step(ch, event))
  {
    match (event, ch.writer)
    case (BeginWrite(record), Between) => BeginKeeps(ch, record);
    case (CopyIn(at), Writing(record, copied)) =>
      if at < |record| { CopyKeeps(ch, at); }
    case (PublishWrite, Writing(record, copied)) =>
      if AllCopied(record, copied) { PublishKeeps(ch); }
    case (_, _) =>
  }

  lemma PublishStores(ring: seq<Byte>, bytes: seq<Byte>, taken: nat, record: seq<Byte>, copied: set<nat>)
    requires ring != [] && taken <= |bytes| && Stored(ring, bytes, taken)
    requires InPlace(ring, |bytes|, record, copied) && AllCopied(record, copied)
    ensures Stored(ring, bytes + record, taken)
  {
    forall k | taken <= k < |bytes + record|
      ensures Place(ring, k) == (bytes + record)[k]
    {
      if k >= |bytes| {
        assert k - |bytes| in copied;
        assert Place(ring, |bytes| + (k - |bytes|)) == record[k - |bytes|];
      }
    }
  }

  lemma PublishKeeps(ch: Channel)
    requires Inv(ch) && ch.writer.Writing? && AllCopied(ch.writer.record, ch.writer.copied)
    ensures ch.Shaped() && Inv(Step(ch, PublishWrite))
  {
    var record := ch.writer.record;
    WrapIsMod(|ch.accepted|, |record|, |ch.ring|);
    PublishStores(ch.ring, ch.accepted, |ch.delivered|, record, ch.writer.copied);
    assert (ch.accepted + record)[..|ch.delivered|] == ch.accepted[..|ch.delivered|];
  }

  lemma ReaderKeeps(ch: Channel, event: Event)
    requires Inv(ch) && (event.BeginRead? || event.CopyOut? || event.PublishRead?)
    ensures ch.Shaped() && Inv(Step(ch, event))
  {
    var size, published, taken := |ch.ring|, |ch.accepted|, |ch.delivered|;
    match (event, ch.reader)
    case (BeginRead(maxLen), Away) =>
      PendingIsUnread(published, taken, size);
    case (CopyOut(at), Reading(count, got)) =>
      if at < count {
        WrapIsMod(taken, at, size);
        assert Place(ch.ring, taken + at) == ch.accepted[taken + at];
      }
    case (PublishRead, Reading(count, got)) =>
      if Whole(count, got) { ReleaseKeeps(ch); }
    case (_, _) =>
  }

  lemma ReleaseKeeps(ch: Channel)
    requires Inv(ch) && ch.reader.Reading? && Whole(ch.reader.count, ch.reader.got)
    ensures ch.Shaped() && Inv(Step(ch, PublishRead))
  {
    var count, taken := ch.reader.count, |ch.delivered|;
    WrapIsMod(taken, count, |ch.ring|);
    var bytes := Assembled(count, ch.reader.got);
    assert bytes == ch.accepted[taken..taken + count];
    assert ch.delivered + bytes == ch.accepted[..taken + count];
  }

  lemma StepKeeps(ch: Channel, event: Event)
    requires Inv(ch)
    ensures ch.Shaped() && Inv(Step(ch, event))
  {
    match event
    case BeginWrite(_) => WriterKeeps(ch, event);
    case CopyIn(_) => WriterKeeps(ch, event);
    case PublishWrite => WriterKeeps(ch, event);
    case _ => ReaderKeeps(ch, event);
  }

  function RunFrom(ch: Channel, events: seq<Event>): (end: Channel)
    requires Inv(ch)
    ensures Inv(end)
    decreases |events|
  {
    if events == [] then ch
    else
      var before := RunFrom(ch, events[..|events| - 1]);
      StepKeeps(before, events[|events| - 1]);
      Step(before, events[|events| - 1])
  }

  function Run(ring: seq<Byte>, events: seq<Event>): (ch: Channel)
    requires ring != []
    ensures Inv(ch)
  {
    RunFrom(Start(ring), events)
  }

  // Under every interleaving, what the reader has been given is the front of the records accepted,
  // in order, none of it lost, repeated or torn.
  lemma DeliveredIsAPrefix(ring: seq<Byte>, events: seq<Event>)
    requires ring != []
    ensures Run(ring, events).delivered <= Run(ring, events).accepted
  {
    var ch := Run(ring, events);
    assert ch.delivered == ch.accepted[..|ch.delivered|];
  }

  // No step of the writer changes a byte that is published and not yet taken.
  lemma UnreadIsNeverOverwritten(ring: seq<Byte>, events: seq<Event>, event: Event, k: nat)
    requires ring != []
    requires var ch := Run(ring, events); |ch.delivered| <= k < |ch.accepted|
    ensures var ch := Run(ring, events);
      && ch.Shaped()
      && Step(ch, event).ring[k % |ch.ring|] == ch.ring[k % |ch.ring|] == ch.accepted[k]
  {
    var ch := Run(ring, events);
    StepKeeps(ch, event);
    assert Place(ch.ring, k) == ch.accepted[k];
    if event.CopyIn? && ch.writer.Writing? && event.at < |ch.writer.record| {
      WrapIsMod(|ch.accepted|, event.at, |ch.ring|);
      PlacesDiffer(k, |ch.accepted| + event.at, |ch.ring|);
    }
  }

  // A record is accepted exactly when there was room for it at the writer's one look at the
  // reader's offset, whatever the reader had given back.
  lemma AcceptedIffRoom(ring: seq<Byte>, events: seq<Event>, record: seq<Byte>)
    requires ring != [] && Run(ring, events).writer.Between?
    ensures var ch := Run(ring, events);
      && ch.Shaped()
      && (Step(ch, BeginWrite(record)).writer.Writing?
          <==> |ch.accepted| - |ch.delivered| + |record| < |ring|)
  {
    var ch := Run(ring, events);
    SizeKept(ring, events);
    PendingIsUnread(|ch.accepted|, |ch.delivered|, |ch.ring|);
  }

  lemma {:induction false} SizeKept(ring: seq<Byte>, events: seq<Event>)
    requires ring != []
    ensures |Run(ring, events).ring| == |ring|
    decreases |events|
  {
    if events != [] {
      SizeKept(ring, events[..|events| - 1]);
    }
  }

  // ---------------------------------------------------------------------------------------------
  // Progress
  // ---------------------------------------------------------------------------------------------

  // A read under way, with the bytes at some positions copied.
  predicate Taking(ch: Channel, delivered: seq<Byte>, count: nat, upTo: seq<Event>)
  {
    && ch.reader.Reading? && ch.reader.count == count && ch.delivered == delivered
    && forall i: nat :: i < count && CopyOut(i) in upTo ==> i in ch.reader.got
  }

  lemma TakingStep(ch: Channel, event: Event, delivered: seq<Byte>, count: nat, upTo: seq<Event>)
    requires ch.Shaped() && Taking(ch, delivered, count, upTo) && event != PublishRead
    ensures Taking(Step(ch, event), delivered, count, upTo + [event])
  {
  }

  lemma {:induction false} TakingGoesOn(ch: Channel, count: nat, events: seq<Event>)
    requires Inv(ch) && Taking(ch, ch.delivered, count, []) && PublishRead !in events
    ensures Taking(RunFrom(ch, events), ch.delivered, count, events)
    decreases |events|
  {
    if events != [] {
      var before, last := events[..|events| - 1], events[|events| - 1];
      TakingGoesOn(ch, count, before);
      StepKeeps(RunFrom(ch, before), last);
      TakingStep(RunFrom(ch, before), last, ch.delivered, count, before);
      assert events == before + [last];
    }
  }

  // What the accepted bytes are does not change under a reader.
  lemma {:induction false} AcceptedGrows(ch: Channel, events: seq<Event>)
    requires Inv(ch)
    ensures ch.accepted <= RunFrom(ch, events).accepted
    decreases |events|
  {
    if events != [] { AcceptedGrows(ch, events[..|events| - 1]); }
  }

  // A read, however its copies and the writer's steps are interleaved: once each byte has been
  // copied and the offset stored, exactly min(pending, maxLen) more bytes have been delivered, the
  // oldest unread ones in order.
  lemma ReadDelivers(ch: Channel, maxLen: nat, events: seq<Event>)
    requires Inv(ch) && ch.reader.Away? && PublishRead !in events
    requires forall e :: e in events ==> !e.BeginRead?
    requires forall i: nat :: i < Least(|ch.accepted| - |ch.delivered|, maxLen) ==> CopyOut(i) in events
    ensures ch.Shaped() && Inv(Step(ch, BeginRead(maxLen)))
    ensures var copied := RunFrom(Step(ch, BeginRead(maxLen)), events);
      var taken, count := |ch.delivered|, Least(|ch.accepted| - |ch.delivered|, maxLen);
      && copied.Shaped()
      && Step(copied, PublishRead).delivered == ch.delivered + ch.accepted[taken..taken + count]
      && Step(copied, PublishRead).reader.Away?
  {
    var begun, taken := Step(ch, BeginRead(maxLen)), |ch.delivered|;
    var count := Least(|ch.accepted| - taken, maxLen);
    StepKeeps(ch, BeginRead(maxLen));
    PendingIsUnread(|ch.accepted|, taken, |ch.ring|);
    var copied := RunFrom(begun, events);
    if count == 0 {
      AwayStays(begun, events);
      assert ch.accepted[taken..taken] == [];
    } else {
      TakingGoesOn(begun, count, events);
      AcceptedGrows(begun, events);
      StepKeeps(copied, PublishRead);
      DeliveredGrows(copied, ch.accepted, taken, count);
    }
  }

  lemma DeliveredGrows(copied: Channel, accepted: seq<Byte>, taken: nat, count: nat)
    requires Inv(copied) && copied.Shaped() && copied.reader.Reading? && copied.reader.count == count
    requires Whole(count, copied.reader.got) && |copied.delivered| == taken
    requires taken + count <= |accepted| && accepted <= copied.accepted
    ensures Step(copied, PublishRead).delivered == copied.delivered + accepted[taken..taken + count]
  {
    var bytes := Assembled(count, copied.reader.got);
    forall i | 0 <= i < count
      ensures bytes[i] == accepted[taken + i]
    {
      assert copied.reader.got[i] == copied.accepted[taken + i];
    }
    assert bytes == accepted[taken..taken + count];
  }

  lemma {:induction false} AwayStays(ch: Channel, events: seq<Event>)
    requires Inv(ch) && ch.reader.Away? && forall e :: e in events ==> !e.BeginRead?
    ensures RunFrom(ch, events).reader.Away? && RunFrom(ch, events).delivered == ch.delivered
    decreases |events|
  {
    if events != [] {
      assert events[|events| - 1] in events;
      AwayStays(ch, events[..|events| - 1]);
    }
  }

  predicate Putting(ch: Channel, accepted: seq<Byte>, record: seq<Byte>, upTo: seq<Event>)
  {
    && ch.writer.Writing? && ch.writer.record == record && ch.accepted == accepted
    && forall i: nat :: i < |record| && CopyIn(i) in upTo ==> i in ch.writer.copied
  }

  lemma {:induction false} PuttingGoesOn(ch: Channel, record: seq<Byte>, events: seq<Event>)
    requires Inv(ch) && Putting(ch, ch.accepted, record, []) && PublishWrite !in events
    ensures Putting(RunFrom(ch, events), ch.accepted, record, events)
    decreases |events|
  {
    if events != [] {
      var before, last := events[..|events| - 1], events[|events| - 1];
      PuttingGoesOn(ch, record, before);
      assert events == before + [last];
    }
  }

  // A record there is room for, however its copies and the reader's steps are interleaved: once each
  // byte has been copied and the offset stored, it has been accepted whole.
  lemma WriteAccepts(ch: Channel, record: seq<Byte>, events: seq<Event>)
    requires Inv(ch) && ch.writer.Between? && |ch.accepted| - |ch.delivered| + |record| < |ch.ring|
    requires PublishWrite !in events && forall i: nat :: i < |record| ==> CopyIn(i) in events
    ensures ch.Shaped() && Inv(Step(ch, BeginWrite(record)))
    ensures var copied := RunFrom(Step(ch, BeginWrite(record)), events);
      && copied.Shaped()
      && Step(copied, PublishWrite).accepted == ch.accepted + record
      && Step(copied, PublishWrite).writer.Between?
  {
    StepKeeps(ch, BeginWrite(record));
    PendingIsUnread(|ch.accepted|, |ch.delivered|, |ch.ring|);
    PuttingGoesOn(Step(ch, BeginWrite(record)), record, events);
    StepKeeps(RunFrom(Step(ch, BeginWrite(record)), events), PublishWrite);
  }
}
