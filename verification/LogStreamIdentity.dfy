/** What the raw identity of a log event tells apart (src/admin/logStreamReplay.ts). */
module LogStreamIdentity {
  import opened Seqs
  import opened Text
  import opened AgentEventBus
  import opened ReplayCandidates
  import opened LogStreamReplay

  /** The text of a payload, the empty one when it is absent; none for a payload that does not serialize. */
  function PayloadText(e: Event): Option<string> {
    if e.data.Unserializable? then None else Some(if e.data.JsonText? then e.data.text else "")
  }

  /** Timestamp and kind leave the separator to the identity, as ISO times and event types do. */
  predicate NoBars(e: Event) {
    (forall k :: 0 <= k < |e.timestamp| ==> e.timestamp[k] != '|') && (forall k :: 0 <= k < |e.kind| ==> e.kind[k] != '|')
  }

  /** Two events that are one record as far as their own fields say. */
  predicate SameRecord(a: Event, b: Event) {
    && a.cycleNumber == b.cycleNumber && a.timestamp == b.timestamp && a.kind == b.kind
    && PayloadText(a) == PayloadText(b)
  }

  lemma IdentityText(e: Event, text: string)
    requires PayloadText(e) == Some(text)
    ensures EventIdentity(e) == Some(Decimal(e.cycleNumber) + "|" + (e.timestamp + "|" + (e.kind + "|" + text)))
  {
    var a, b, c := Decimal(e.cycleNumber), e.timestamp, e.kind;
    AppendNothing(EventPrefix(e) + "|");
    AppendAssociative(a + "|" + b + "|" + c, "|", text);
    AppendAssociative(a + "|" + b + "|", c, "|" + text);
    AppendAssociative(a + "|" + b, "|", c + ("|" + text));
    AppendAssociative(a + "|", b, "|" + (c + ("|" + text)));
    AppendAssociative(c, "|", text);
    AppendAssociative(b, "|", c + "|" + text);
  }

  lemma BarsSeparate(a: string, b: string, c: string, d: string, e: string, f: string, g: string, h: string)
    requires a + "|" + (b + "|" + (c + "|" + d)) == e + "|" + (f + "|" + (g + "|" + h))
    requires Lacks(a, '|') && Lacks(b, '|') && Lacks(c, '|') && Lacks(e, '|') && Lacks(f, '|') && Lacks(g, '|')
    ensures a == e && b == f && c == g && d == h
  {
    SplitAtSeparator(a, b + "|" + (c + "|" + d), e, f + "|" + (g + "|" + h), '|');
    SplitAtSeparator(b, c + "|" + d, f, g + "|" + h, '|');
    SplitAtSeparator(c, d, g, h, '|');
  }

  /** Identities agree exactly when cycle, timestamp, kind and payload text do, an absent payload counting as empty. */
  lemma IdentitiesAgreeExactly(a: Event, b: Event)
    requires NoBars(a) && NoBars(b)
    ensures EventIdentity(a).Some? <==> !a.data.Unserializable?
    ensures EventIdentity(a).Some? && EventIdentity(a) == EventIdentity(b) <==> !a.data.Unserializable? && SameRecord(a, b)
  {
    hide EventPrefix;
    if PayloadText(a).Some? && PayloadText(b).Some? {
      var s, t := PayloadText(a).value, PayloadText(b).value;
      IdentityText(a, s);
      IdentityText(b, t);
      if EventIdentity(a) == EventIdentity(b) {
        BarsSeparate(Decimal(a.cycleNumber), a.timestamp, a.kind, s, Decimal(b.cycleNumber), b.timestamp, b.kind, t);
        DecimalInjective(a.cycleNumber, b.cycleNumber);
      }
    }
  }

  /**
   * A persisted event is taken for a copy exactly when it stands among the
   * cycle's last events, as many as are buffered, serializes, and some buffered
   * event is the same record. So one that differs from every buffered event in
   * its cycle, its time, its kind or its payload never is.
   */
  lemma CopiesAgreeExactly(events: seq<Event>, live: seq<Event>, i: nat)
    requires forall e | e in events || e in live :: NoBars(e)
    ensures i in CopyPositions(events, live)
       <==> && i < |events| && i + |live| >= |events| && !events[i].data.Unserializable?
            && exists j :: 0 <= j < |live| && SameRecord(events[i], live[j])
  {
    if i < |events| {
      var e := events[i];
      hide EventIdentity, EventPrefix, IdentitiesOf, PrefixesOf, SameRecord, NoBars;
      assert e in events;
      forall j | 0 <= j < |live|
        ensures e.data.Unserializable? || (EventIdentity(e) == EventIdentity(live[j]) <==> SameRecord(e, live[j]))
      {
        assert live[j] in live;
        IdentitiesAgreeExactly(e, live[j]);
      }
      IdentitiesAgreeExactly(e, e);
      if EventIdentity(e).Some? {
        IdentityMember(live, |live|, EventIdentity(e).value);
        if j :| 0 <= j < |live| && EventIdentity(live[j]) == EventIdentity(e) {
          PrefixMember(live, |live|, j);
          SamePrefix(e, live[j]);
        }
      }
    }
  }

  lemma SamePrefix(a: Event, b: Event)
    requires NoBars(a) && NoBars(b) && EventIdentity(a).Some? && EventIdentity(a) == EventIdentity(b)
    ensures EventPrefix(a) == EventPrefix(b)
  {
    IdentitiesAgreeExactly(a, b);
    hide EventIdentity;
  }
}
