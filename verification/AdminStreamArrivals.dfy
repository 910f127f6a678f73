/** Every published event reaches the client as itself (src/admin/adminStreamRoutes.ts). */
module AdminStreamArrivals {
  import opened Seqs
  import opened AgentEventBus
  import opened ReplayCandidates
  import opened LogStreamReplay
  import opened LogStreamReplayProperties
  import opened AdminStreamRoutes
  import opened AdminStreamProperties
  import opened AdminStreamOrder
  import opened AdminStreamContents

  // ---------------------------------------------------------------------------
  // Every event arrives as itself
  // ---------------------------------------------------------------------------

  /** Different contents have different keys. */
  ghost predicate InjectiveKeys(codec: Codec) {
    forall a, b :: codec.key(a) == codec.key(b) ==> a == b
  }

  predicate Printable(codec: Codec, e: Event) {
    e.data.Unserializable? ==> codec.prints(e)
  }

  /** An entry saying exactly this event, with its key and its id, is in the output. */
  ghost predicate Arrives(codec: Codec, out: seq<Entry>, e: Event) {
    exists x :: x in out && x == Entry(EventBody(e), codec.key(EventBody(e)), codec.id(codec.key(EventBody(e))))
  }

  lemma KeyArrives(codec: Codec, sent: seq<Entry>, e: Event)
    requires InjectiveKeys(codec) && AllKeyed(codec, sent)
    requires codec.key(EventBody(e)) in Keys(Output(codec, sent))
    ensures Arrives(codec, Output(codec, sent), e)
  {
    hide Keys, Prints;
    var x := KeyTaken(Output(codec, sent), codec.key(EventBody(e)));
    FilterMember(Printing(codec), sent, x);
    assert codec.key(x.body) == codec.key(EventBody(e));
    assert x == Entry(EventBody(e), codec.key(EventBody(e)), codec.id(codec.key(EventBody(e))));
  }

  lemma EntryIs(codec: Codec, events: seq<Event>, i: nat)
    requires i < |events|
    ensures EventEntries(codec, events, 0, |events|)[i]
         == Entry(EventBody(events[i]), codec.key(EventBody(events[i])), codec.id(codec.key(EventBody(events[i]))))
  {
    EntryAt(codec, events, 0, |events|, i);
  }

  lemma EventKeyIn(codec: Codec, events: seq<Event>, k: nat, i: nat)
    requires i < k <= |events|
    ensures codec.key(EventBody(events[i])) in Keys(EventEntries(codec, events, 0, |events|)[..k])
  {
    var entries := EventEntries(codec, events, 0, |events|);
    EntryIs(codec, events, i);
    assert entries[..k][i] == entries[i];
    hide EventEntries, Keys;
    KeyOf(entries[..k], i);
  }

  /**
   * Every interleaving in which the stream goes live, different contents having
   * different keys: a client still connected has received an entry saying
   * exactly that event for each of the newest 500 published between attaching
   * and the replay, up to the first that throws, so for all when all print; and
   * for every later one that prints.
   */
  lemma EventsArrive(scope: Scope, buffers: Buffers, before: seq<Step>, read: Step, after: seq<Step>)
    requires Bounded(buffers) && NoRead(before) && read.CyclesRead? && InjectiveKeys(scope.codec)
    requires Open(Handed(scope, buffers, before, read, after))
    requires Next(scope, Run(scope, System(buffers, ATTACHED), before), read).conn.streaming
    ensures var newest, live := LastN(PublishedIn(scope, before), 500), PublishedIn(scope, after);
            var out := Output(scope.codec, Handed(scope, buffers, before, read, after).sent);
            var k := Drained(scope, Run(scope, System(buffers, ATTACHED), before), read);
            && k <= |newest| && ((forall e | e in newest :: Printable(scope.codec, e)) ==> k == |newest|)
            && (forall i | 0 <= i < k :: Arrives(scope.codec, out, newest[i]))
            && forall e | e in live && Printable(scope.codec, e) :: Arrives(scope.codec, out, e)
  {
    var codec, newest, live := scope.codec, LastN(PublishedIn(scope, before), 500), PublishedIn(scope, after);
    var held, lives := EventEntries(codec, newest, 0, |newest|), EventEntries(codec, live, 0, |live|);
    var sent := Handed(scope, buffers, before, read, after).sent;
    var k := Drained(scope, Run(scope, System(buffers, ATTACHED), before), read);
    GaplessHandOff(scope, buffers, before, read, after);
    EverythingIsKeyed(scope, buffers, before + [read] + after);
    assert AllKeyed(codec, sent) && LastN(PublishedIn(scope, before), MAX_PENDING) == newest;
    hide Run, Next, Handed, PublishedIn, Bounded, NoRead, EventEntries, Keys, AllKeyed, InjectiveKeys, Arrives, Drained, LastN;
    if forall e | e in newest :: Printable(codec, e) {
      AllPrintable(codec, newest);
    }
    forall i | 0 <= i < k ensures Arrives(codec, Output(codec, sent), newest[i]) {
      EventKeyIn(codec, newest, k, i);
      KeyArrives(codec, sent, newest[i]);
    }
    forall e | e in live && Printable(codec, e) ensures Arrives(codec, Output(codec, sent), e) {
      var i :| 0 <= i < |live| && live[i] == e;
      EntryIs(codec, live, i);
      LiveArrives(codec, held, newest, lives, live, i);
      KeyArrives(codec, sent, e);
    }
  }

  lemma AllPrintable(codec: Codec, events: seq<Event>)
    requires forall e | e in events :: Printable(codec, e)
    ensures AllPrint(codec, EventEntries(codec, events, 0, |events|))
  {
    var entries := EventEntries(codec, events, 0, |events|);
    forall x | x in entries ensures Prints(codec, x) {
      var i :| 0 <= i < |entries| && entries[i] == x;
      EntryIs(codec, events, i);
      assert events[i] in events;
    }
  }

  /** Entries with a printable event's key say that event, so they print. */
  lemma LiveArrives(codec: Codec, held: seq<Entry>, newest: seq<Event>, lives: seq<Entry>, live: seq<Event>, i: nat)
    requires InjectiveKeys(codec) && i < |live| && Printable(codec, live[i])
    requires held == EventEntries(codec, newest, 0, |newest|) && lives == EventEntries(codec, live, 0, |live|)
    ensures lives[i] in lives && forall x: Entry | x in held + lives && x.key == lives[i].key :: Prints(codec, x)
  {
    EntryIs(codec, live, i);
    EventsKeyed(codec, newest, 0, |newest|);
    EventsKeyed(codec, live, 0, |live|);
    hide EventEntries;
    forall x: Entry | x in held + lives && x.key == lives[i].key ensures Prints(codec, x) {
      assert x in held || x in lives;
      assert codec.key(x.body) == codec.key(EventBody(live[i]));
    }
  }
}
