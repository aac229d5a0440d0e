/** Which owners and senders the web client has reported, and which senders belong to which owner. */
module Telemetry {
  import opened Wrappers
  import opened Sequences
  import opened Sorting
  import opened JsMaps
  import opened Text

  datatype App = Web | Admin

  datatype Heartbeat = Heartbeat(sessionId: string, app: App, owner: Option<string>, sender: Option<string>)

  datatype Session = Session(hb: Heartbeat, lastSeenMs: int)

  datatype OwnerSeen = OwnerSeen(owner: string, firstSeenMs: int, lastSeenMs: int)

  datatype SenderSeen = SenderSeen(sender: string, owner: Option<string>, firstSeenMs: int, lastSeenMs: int)

  /** The indexes, keyed in lower case; a `Set` of linked sender keys is a duplicate-free sequence. */
  datatype Index = Index(owners: JsMap<string, OwnerSeen>, senders: JsMap<string, SenderSeen>, links: JsMap<string,
      seq<string>>)

  /** A heartbeat and when it arrived. */
  datatype Beat = Beat(hb: Heartbeat, now: int)

  /** A name that is present and not empty. */
  predicate Given(name: Option<string>) {
    name.GetOr("") != ""
  }

  predicate Names(name: Option<string>, key: string) {
    Given(name) && ToLower(name.value) == key
  }

  function UpsertOwner(owners: JsMap<string, OwnerSeen>, b: Beat): (r: JsMap<string, OwnerSeen>)
    ensures owners.Valid() ==> r.Valid()
  {
    if !Given(b.hb.owner) then owners
    else
      var key := ToLower(b.hb.owner.value);
      match owners.Get(key)
      case Some(o) => owners.Set(key, o.(lastSeenMs := b.now))
      case None => owners.Set(key, OwnerSeen(b.hb.owner.value, b.now, b.now))
  }

  function UpsertSender(senders: JsMap<string, SenderSeen>, b: Beat): (r: JsMap<string, SenderSeen>)
    ensures senders.Valid() ==> r.Valid()
  {
    if !Given(b.hb.sender) then senders
    else
      var key := ToLower(b.hb.sender.value);
      match senders.Get(key)
      case Some(s) => senders.Set(key, s.(lastSeenMs := b.now,
          owner := if Given(b.hb.owner) then b.hb.owner else s.owner))
      case None => senders.Set(key, SenderSeen(b.hb.sender.value, b.hb.owner, b.now, b.now))
  }

  function AddTo(s: seq<string>, x: string): seq<string> {
    if x in s then s else s + [x]
  }

  function UpsertLink(links: JsMap<string, seq<string>>, b: Beat): (r: JsMap<string, seq<string>>)
    ensures links.Valid() ==> r.Valid()
  {
    if !Given(b.hb.owner) || !Given(b.hb.sender) then links
    else
      var key := ToLower(b.hb.owner.value);
      links.Set(key, AddTo(links.Get(key).GetOr([]), ToLower(b.hb.sender.value)))
  }

  function Upsert(x: Index, b: Beat): Index {
    Index(UpsertOwner(x.owners, b), UpsertSender(x.senders, b), UpsertLink(x.links, b))
  }

  function Replay(history: seq<Beat>): Index {
    if history == [] then Index(Empty(), Empty(), Empty())
    else Upsert(Replay(history[..|history| - 1]), history[|history| - 1])
  }

  // ---- The lower-case key invariant

  /** Every record sits under its own name in lower case, and only known senders are linked, once each, to known
      owners. */
  ghost predicate Keyed(x: Index) {
    && x.owners.Valid() && x.senders.Valid() && x.links.Valid()
    && (forall k :: k in x.owners.entries ==> ToLower(x.owners.entries[k].owner) == k)
    && (forall k :: k in x.senders.entries ==> ToLower(x.senders.entries[k].sender) == k)
    && (forall k :: k in x.links.entries ==> k in x.owners.entries && Distinct(x.links.entries[k]))
    && (forall k, s :: k in x.links.entries && s in x.links.entries[k] ==> s in x.senders.entries)
  }

  lemma {:induction false} OwnersKeyed(owners: JsMap<string, OwnerSeen>, b: Beat)
    requires forall k :: k in owners.entries ==> ToLower(owners.entries[k].owner) == k
    ensures forall k :: k in UpsertOwner(owners, b).entries ==> ToLower(UpsertOwner(owners, b).entries[k].owner) == k
    ensures forall k :: k in owners.entries ==> k in UpsertOwner(owners, b).entries
  {
  }

  lemma {:induction false} SendersKeyed(senders: JsMap<string, SenderSeen>, b: Beat)
    requires forall k :: k in senders.entries ==> ToLower(senders.entries[k].sender) == k
    ensures forall k :: k in UpsertSender(senders, b).entries ==>
        ToLower(UpsertSender(senders, b).entries[k].sender) == k
    ensures forall k :: k in senders.entries ==> k in UpsertSender(senders, b).entries
  {
  }

  lemma {:induction false} LinksDistinct(links: JsMap<string, seq<string>>, b: Beat, k: string)
    requires forall o :: o in links.entries ==> Distinct(links.entries[o])
    requires k in UpsertLink(links, b).entries
    ensures Distinct(UpsertLink(links, b).entries[k])
  {
  }

  lemma {:induction false} UpsertKeyed(x: Index, b: Beat)
    requires Keyed(x)
    ensures Keyed(Upsert(x, b))
  {
    var y := Upsert(x, b);
    OwnersKeyed(x.owners, b);
    SendersKeyed(x.senders, b);
    forall k | k in y.links.entries
      ensures k in y.owners.entries && Distinct(y.links.entries[k])
    {
      LinksDistinct(x.links, b, k);
    }
  }

  lemma {:induction false} ReplayKeyed(history: seq<Beat>)
    ensures Keyed(Replay(history))
    decreases |history|
  {
    if history != [] {
      ReplayKeyed(history[..|history| - 1]);
      UpsertKeyed(Replay(history[..|history| - 1]), history[|history| - 1]);
    }
  }

  // ---- What the indexes say about the heartbeats

  ghost predicate Linked(x: Index, o: string, s: string) {
    o in x.links.entries && s in x.links.entries[o]
  }

  predicate NamesBoth(b: Beat, o: string, s: string) {
    Names(b.hb.owner, o) && Names(b.hb.sender, s)
  }

  lemma {:induction false} LinkStep(x: Index, b: Beat, o: string, s: string)
    ensures Linked(Upsert(x, b), o, s) <==> Linked(x, o, s) || NamesBoth(b, o, s)
  {
  }

  /** A sender is linked to an owner exactly when some heartbeat named both. */
  lemma {:induction false} LinkedByHeartbeat(history: seq<Beat>, o: string, s: string)
    ensures Linked(Replay(history), o, s) <==> exists i :: 0 <= i < |history| && NamesBoth(history[i], o, s)
    decreases |history|
  {
    if history != [] {
      var n := |history| - 1;
      var h := history[..n];
      LinkedByHeartbeat(h, o, s);
      LinkStep(Replay(h), history[n], o, s);
      if i :| 0 <= i < n && NamesBoth(h[i], o, s) {
        assert NamesBoth(history[i], o, s);
      }
      if i :| 0 <= i < |history| && NamesBoth(history[i], o, s) && i < n {
        assert NamesBoth(h[i], o, s);
      }
    }
  }

  /** The heartbeats that name something for the first and for the last time. */
  ghost predicate Spans(names: seq<bool>, first: nat, last: nat) {
    && first <= last < |names| && names[first] && names[last]
    && (forall i :: 0 <= i < |names| && names[i] ==> first <= i <= last)
  }

  /** One heartbeat less: the span ends at the naming one before, or there was none. */
  lemma {:induction false} SpanBefore(names: seq<bool>, first: nat, last: nat) returns (prev: nat)
    requires Spans(names, first, last)
    ensures last < |names| - 1 ==> prev == last && Spans(names[..|names| - 1], first, last)
    ensures last == |names| - 1 && first < last ==> prev < last && Spans(names[..|names| - 1], first, prev)
    ensures first == last == |names| - 1 ==> forall i :: 0 <= i < |names| - 1 ==> !names[i]
  {
    prev := last;
    if last == |names| - 1 && first < last {
      prev := LastNaming(names[..|names| - 1], first);
    }
  }

  lemma {:induction false} LastNaming(names: seq<bool>, first: nat) returns (last: nat)
    requires first < |names| && names[first]
    ensures first <= last < |names| && names[last]
    ensures forall i :: last < i < |names| ==> !names[i]
    decreases |names|
  {
    var n := |names| - 1;
    if names[n] {
      last := n;
    } else {
      last := LastNaming(names[..n], first);
    }
  }

  // ---- Owner records

  /** Which heartbeats name an owner, in whatever letter case. */
  function OwnerNamed(history: seq<Beat>, k: string): (r: seq<bool>)
    ensures |r| == |history|
    ensures forall i :: 0 <= i < |history| ==> r[i] == Names(history[i].hb.owner, k)
  {
    Map((b: Beat) => Names(b.hb.owner, k), history)
  }

  function SeenOwner(o: Option<OwnerSeen>, b: Beat, k: string): Option<OwnerSeen> {
    if !Names(b.hb.owner, k) then o
    else match o
      case Some(seen) => Some(seen.(lastSeenMs := b.now))
      case None => Some(OwnerSeen(b.hb.owner.value, b.now, b.now))
  }

  lemma {:induction false} OwnerStep(history: seq<Beat>, k: string)
    requires history != []
    ensures
      var n := |history| - 1;
      && Replay(history).owners.Get(k) == SeenOwner(Replay(history[..n]).owners.Get(k), history[n], k)
      && OwnerNamed(history, k)[..n] == OwnerNamed(history[..n], k)
  {
  }

  lemma {:induction false} OwnerUnseen(history: seq<Beat>, k: string)
    requires forall i :: 0 <= i < |history| ==> !OwnerNamed(history, k)[i]
    ensures Replay(history).owners.Get(k) == None
    decreases |history|
  {
    if history != [] {
      var n := |history| - 1;
      OwnerStep(history, k);
      assert !OwnerNamed(history, k)[n];
      forall i | 0 <= i < n
        ensures !OwnerNamed(history[..n], k)[i]
      {
        assert !OwnerNamed(history, k)[i];
      }
      OwnerUnseen(history[..n], k);
    }
  }

  /** The first and the last heartbeat that named an owner are the times on its record, whatever letter case they
      used. */
  lemma {:induction false} OwnerTimes(history: seq<Beat>, k: string, first: nat, last: nat)
    requires Spans(OwnerNamed(history, k), first, last)
    ensures Replay(history).owners.Get(k)
      == Some(OwnerSeen(history[first].hb.owner.value, history[first].now, history[last].now))
    decreases |history|
  {
    var n := |history| - 1;
    OwnerStep(history, k);
    var prev := SpanBefore(OwnerNamed(history, k), first, last);
    hide Replay, Spans;
    if first < n {
      OwnerTimes(history[..n], k, first, prev);
    } else {
      OwnerUnseen(history[..n], k);
    }
  }

  // ---- Sender records

  function SenderNamed(history: seq<Beat>, k: string): (r: seq<bool>)
    ensures |r| == |history|
    ensures forall i :: 0 <= i < |history| ==> r[i] == Names(history[i].hb.sender, k)
  {
    Map((b: Beat) => Names(b.hb.sender, k), history)
  }

  function SeenSender(s: Option<SenderSeen>, b: Beat, k: string): Option<SenderSeen> {
    if !Names(b.hb.sender, k) then s
    else match s
      case Some(seen) => Some(seen.(lastSeenMs := b.now, owner := if Given(b.hb.owner) then b.hb.owner else seen.owner))
      case None => Some(SenderSeen(b.hb.sender.value, b.hb.owner, b.now, b.now))
  }

  lemma {:induction false} SenderStep(history: seq<Beat>, k: string)
    requires history != []
    ensures
      var n := |history| - 1;
      && Replay(history).senders.Get(k) == SeenSender(Replay(history[..n]).senders.Get(k), history[n], k)
      && SenderNamed(history, k)[..n] == SenderNamed(history[..n], k)
  {
  }

  lemma {:induction false} SenderUnseen(history: seq<Beat>, k: string)
    requires forall i :: 0 <= i < |history| ==> !SenderNamed(history, k)[i]
    ensures Replay(history).senders.Get(k) == None
    decreases |history|
  {
    if history != [] {
      var n := |history| - 1;
      SenderStep(history, k);
      assert !SenderNamed(history, k)[n];
      forall i | 0 <= i < n
        ensures !SenderNamed(history[..n], k)[i]
      {
        assert !SenderNamed(history, k)[i];
      }
      SenderUnseen(history[..n], k);
    }
  }

  /** The owner that stays with a sender: of the heartbeats that name it, the last to give an owner says which; without
      one the first heartbeat's field stays as it was. */
  ghost predicate Sticky(history: seq<Beat>, k: string, first: nat, giver: nat) {
    && first <= giver < |history| && Names(history[giver].hb.sender, k)
    && (giver == first || Given(history[giver].hb.owner))
    && (forall i :: giver < i < |history| && Names(history[i].hb.sender, k) ==> !Given(history[i].hb.owner))
  }

  /** A sender's record: its first spelling, the times of the first and the last heartbeat that named it, and the owner
      given by the last of them that gave one. */
  lemma {:induction false} SenderTimes(history: seq<Beat>, k: string, first: nat, last: nat, giver: nat)
    requires Spans(SenderNamed(history, k), first, last) && Sticky(history, k, first, giver)
    ensures Replay(history).senders.Get(k)
      == Some(SenderSeen(history[first].hb.sender.value, history[giver].hb.owner, history[first].now,
          history[last].now))
    decreases |history|
  {
    var n := |history| - 1;
    SenderStep(history, k);
    var prev := SpanBefore(SenderNamed(history, k), first, last);
    if first == n {
      SenderUnseen(history[..n], k);
    } else {
      var was := giver;
      if giver == n {
        was := StickyOf(history[..n], k, first);
      }
      SenderTimes(history[..n], k, first, prev, was);
    }
  }

  /** Some heartbeat decides the owner. */
  lemma {:induction false} StickyOf(history: seq<Beat>, k: string, first: nat) returns (giver: nat)
    requires first < |history| && Names(history[first].hb.sender, k)
    ensures Sticky(history, k, first, giver)
    decreases |history|
  {
    var n := |history| - 1;
    if first == n || (Names(history[n].hb.sender, k) && Given(history[n].hb.owner)) {
      giver := n;
    } else {
      giver := StickyOf(history[..n], k, first);
    }
  }

  // ---- Listings

  datatype OwnerListing = OwnerListing(owner: string, firstSeenMs: int, lastSeenMs: int, senders: seq<string>)

  /** A linked sender as it was first spelled. */
  function Spelled(senders: JsMap<string, SenderSeen>): string -> string {
    (s: string) => if s in senders.entries then senders.entries[s].sender else s
  }

  function Listing(x: Index): string -> OwnerListing {
    (k: string) =>
      var seen := x.owners.Get(k).GetOr(OwnerSeen(k, 0, 0));
      OwnerListing(seen.owner, seen.firstSeenMs, seen.lastSeenMs, Map(Spelled(x.senders), x.links.Get(k).GetOr([])))
  }

  predicate OwnerLater(a: OwnerListing, b: OwnerListing) {
    b.lastSeenMs <= a.lastSeenMs
  }

  predicate SenderLater(a: SenderSeen, b: SenderSeen) {
    b.lastSeenMs <= a.lastSeenMs
  }

  function OwnerListings(x: Index): seq<OwnerListing> {
    Sort(OwnerLater, Map(Listing(x), x.owners.keys))
  }

  function SenderListings(x: Index): seq<SenderSeen>
    requires x.senders.Valid()
  {
    Sort(SenderLater, x.senders.Values())
  }

  /** However the linked senders are spelled, their keys are the link set. */
  lemma {:induction false} SpelledKeys(x: Index, k: string)
    requires Keyed(x) && k in x.links.entries
    ensures Map(ToLower, Map(Spelled(x.senders), x.links.entries[k])) == x.links.entries[k]
  {
    var linked := x.links.entries[k];
    forall i | 0 <= i < |linked|
      ensures ToLower(Spelled(x.senders)(linked[i])) == linked[i]
    {
      assert linked[i] in linked;
    }
  }

  lemma {:induction false} ListingOf(owners: JsMap<string, OwnerSeen>, senders: JsMap<string, SenderSeen>,
      links: JsMap<string, seq<string>>, k: string, f: string -> OwnerListing)
    requires k in owners.entries && f == Listing(Index(owners, senders, links))
    ensures f(k) == OwnerListing(owners.entries[k].owner, owners.entries[k].firstSeenMs, owners.entries[k].lastSeenMs,
                                 Map(Spelled(senders), links.Get(k).GetOr([])))
  {
  }

  /** One listing per owner, in insertion order. */
  method Listings(owners: JsMap<string, OwnerSeen>, senders: JsMap<string, SenderSeen>, links: JsMap<string,
      seq<string>>)
    returns (out: seq<OwnerListing>)
    requires owners.Valid()
    ensures out == Map(Listing(Index(owners, senders, links)), owners.keys)
  {
    hide Listing, Spelled;
    out := [];
    ghost var f := Listing(Index(owners, senders, links));
    for i := 0 to |owners.keys|
      invariant |out| == i
      invariant forall j :: 0 <= j < i ==> out[j] == f(owners.keys[j])
    {
      var ownerKey := owners.keys[i];
      var seen := owners.entries[ownerKey];
      var names := Map(Spelled(senders), links.Get(ownerKey).GetOr([]));
      ListingOf(owners, senders, links, ownerKey, f);
      out := out + [OwnerListing(seen.owner, seen.firstSeenMs, seen.lastSeenMs, names)];
    }
    assert out == Map(f, owners.keys);
  }

  class TelemetryStore {
    var sessions: JsMap<string, Session>
    var owners: JsMap<string, OwnerSeen>
    var senders: JsMap<string, SenderSeen>
    var ownerToSenders: JsMap<string, seq<string>>
    ghost var history: seq<Beat>

    ghost predicate Valid()
      reads this
    {
      Index(owners, senders, ownerToSenders) == Replay(history)
    }

    constructor ()
      ensures Valid() && history == [] && sessions == Empty()
    {
      sessions, owners, senders, ownerToSenders := Empty(), Empty(), Empty(), Empty();
      history := [];
    }

    method UpsertSession(hb: Heartbeat, now: int)
      requires Valid()
      modifies this
      ensures Valid() && history == old(history) + [Beat(hb, now)]
      ensures sessions == old(sessions).Set(hb.sessionId, Session(hb, now))
    {
      assert (history + [Beat(hb, now)])[..|history|] == history;
      history := history + [Beat(hb, now)];
      sessions := sessions.Set(hb.sessionId, Session(hb, now));
      if Given(hb.owner) {
        var key := ToLower(hb.owner.value);
        var existing := owners.Get(key);
        if existing.Some? {
          owners := owners.Set(key, existing.value.(lastSeenMs := now));
        } else {
          owners := owners.Set(key, OwnerSeen(hb.owner.value, now, now));
        }
      }
      if Given(hb.sender) {
        var key := ToLower(hb.sender.value);
        var existing := senders.Get(key);
        if existing.Some? {
          var seen := existing.value.(lastSeenMs := now);
          if Given(hb.owner) {
            seen := seen.(owner := hb.owner);
          }
          senders := senders.Set(key, seen);
        } else {
          senders := senders.Set(key, SenderSeen(hb.sender.value, hb.owner, now, now));
        }
      }
      if Given(hb.owner) && Given(hb.sender) {
        var ownerKey, senderKey := ToLower(hb.owner.value), ToLower(hb.sender.value);
        var linked := ownerToSenders.Get(ownerKey).GetOr([]);
        linked := AddTo(linked, senderKey);
        ownerToSenders := ownerToSenders.Set(ownerKey, linked);
      }
    }

    method ListOwners() returns (r: seq<OwnerListing>)
      requires Valid()
      ensures r == OwnerListings(Replay(history))
    {
      ReplayKeyed(history);
      var out := Listings(owners, senders, ownerToSenders);
      r := Sort(OwnerLater, out);
    }

    method ListSenders() returns (r: seq<SenderSeen>)
      requires Valid()
      ensures Keyed(Replay(history)) && r == SenderListings(Replay(history))
    {
      ReplayKeyed(history);
      r := Sort(SenderLater, senders.Values());
    }
  }
}
