/** End to end: authors publish, evict, restart and serve; a reader hears live
    packets and recovers ranges. Composes crates/arachne-delivery/src/lib.rs,
    crates/arachne-delivery/src/wire.rs and crates/arachne-delivery/src/receive.rs
    into one state machine. */
module NoLoss {
  import opened Bytes
  import opened Ordering
  import opened Publication
  import opened Retention
  import opened Selection
  import opened Snapshot
  import opened Wire
  import opened Receive

  /** An author's bounded index, and everything it ever appended. */
  datatype Author = Author(log: Log, past: seq<Record>)

  datatype Signed = Signed(query: RangeQuery, digests: seq<Digest>)

  datatype World = World(authors: map<Id32, Author>, signed: set<Signed>, journal: Journal)

  datatype Event =
    | Publishes(author: Id32, context: Context, ciphertext: seq<byte>)
    | Restarts(author: Id32, inbox: nat)
    | Serves(author: Id32, authorized: bool, query: RangeQuery)
    | Hears(member: Id32, context: Context, packet: seq<byte>)
    | Recovers(ownerMatches: bool, endpoint: Id32, query: RangeQuery, reply: seq<byte>, openings: nat -> Opening)

  ghost predicate AuthorsSound(w: World) {
    forall a :: a in w.authors ==> Reached(w.authors[a].log, w.authors[a].past) && w.authors[a].log.author == a
  }

  ghost predicate TrulySigned(sec: Security, w: World, s: Signed) {
    && s.query.author in w.authors
    && s.query.through <= |w.authors[s.query.author].past|
    && s.digests == Digests(sec, Carried(Window(w.authors[s.query.author].past, s.query.topics, s.query.after, s.query.through)))
  }

  /** Every publication of `past` on the topics up to n has its exact evidence. */
  ghost predicate Covers(sec: Security, j: Journal, a: Id32, past: seq<Record>, topics: set<Topic>, n: nat) {
    n <= |past| && forall i :: 0 <= i < n && past[i].context.topic in topics ==> Has(sec, j, a, past[i].context, past[i].ciphertext)
  }

  ghost predicate JournalSound(sec: Security, w: World) {
    forall a, topics :: (a, SelectionDigest(sec, topics)) in w.journal.progress ==>
      a in w.authors && Covers(sec, w.journal, a, w.authors[a].past, topics, w.journal.progress[(a, SelectionDigest(sec, topics))])
  }

  ghost predicate Sound(sec: Security, w: World) {
    AuthorsSound(w) && (forall s :: s in w.signed ==> TrulySigned(sec, w, s)) && JournalSound(sec, w)
  }

  /** One event. A refused or failed operation leaves the world as it is. */
  ghost function Next(sec: Security, w: World, e: Event): World
    requires AuthorsSound(w)
  {
    match e
    case Publishes(a, c, ciphertext) => if a in w.authors then w.(authors := w.authors[a := Published(w.authors[a], c, ciphertext)]) else w
    case Restarts(a, inbox) => if a in w.authors then w.(authors := w.authors[a := Restarted(w.authors[a], inbox)]) else w
    case Serves(a, authorized, q) => if a in w.authors then w.(signed := w.signed + Signing(sec, w.authors[a].log, authorized, q)) else w
    case Hears(member, c, packet) =>
      var next := Recorded(sec, w.journal, member, c, packet);
      if next.Ok? then w.(journal := next.value) else w
    case Recovers(ownerMatches, endpoint, q, reply, openings) =>
      var next := Prepare(sec, w.journal, ownerMatches, endpoint, q, reply, openings);
      if next.Ok? && next.value.Prepared? then w.(journal := next.value.received) else w
  }

  ghost function Published(a: Author, c: Context, ciphertext: seq<byte>): Author
    requires Reached(a.log, a.past)
  {
    var next := Append(a.log, c, ciphertext);
    if next.Ok? then Author(next.value, a.past + [Record(a.log.head + 1, c, ciphertext)]) else a
  }

  /** Save beside an inbox of some size, then come back from the saved bytes. */
  ghost function Restarted(a: Author, inbox: nat): Author
    requires Reached(a.log, a.past)
  {
    var saved := Narrow(a.log, inbox);
    if saved.Err? then a else
    match Decode(a.log.workspace, a.log.author, a.log.epoch, Encode(saved.value))
    case Ok(log) => a.(log := log)
    case Err(_) => a
  }

  ghost function Signing(sec: Security, log: Log, authorized: bool, q: RangeQuery): set<Signed> {
    match Serve(sec, log, authorized, q)
    case Ok(Offers(ps, _)) => {Signed(q, Digests(sec, ps))}
    case _ => {}
  }

  /** Signatures cannot be forged: an offer that opens was signed before. */
  ghost predicate Unforged(sec: Security, w: World, e: Event) {
    e.Recovers? && OfferIn(e.query, e.reply).Some? ==>
      match sec.open(RequestOf(sec, e.query), OfferIn(e.query, e.reply).value)
      case None => true
      case Some(digests) => exists s :: s in w.signed && RequestOf(sec, s.query) == RequestOf(sec, e.query) && s.digests == digests
  }

  // -------------------------------------------------------- each event in turn

  lemma PublishedGrows(a: Author, c: Context, ciphertext: seq<byte>)
    requires Reached(a.log, a.past)
    ensures var b := Published(a, c, ciphertext);
            Reached(b.log, b.past) && a.past <= b.past && b.log.author == a.log.author
  {
    hide Reached, Append, Raised;
    ReachedFaithful(a.log, a.past);
    ReachedAccounted(a.log, a.past);
    if Append(a.log, c, ciphertext).Ok? {
      AppendReached(a.log, a.past, c, ciphertext);
      RaisedScope(a.log, c, ciphertext);
    }
  }

  lemma RaisedScope(log: Log, c: Context, ciphertext: seq<byte>)
    requires Accounted(log) && Append(log, c, ciphertext).Ok?
    requires Raised(Push(log, NewRecord(log, c, ciphertext)), Append(log, c, ciphertext).value)
    ensures Append(log, c, ciphertext).value.author == log.author
  {
    hide Append, Accounted;
  }

  lemma RestartedKeeps(a: Author, inbox: nat)
    requires Reached(a.log, a.past)
    ensures var b := Restarted(a, inbox);
            Reached(b.log, b.past) && b.past == a.past && b.log.author == a.log.author
  {
    hide Reached, Narrow, Encode, Decode;
    NarrowSound(a.log, a.past, inbox);
  }

  lemma SigningTrue(sec: Security, a: Author, authorized: bool, q: RangeQuery, s: Signed)
    requires Reached(a.log, a.past) && s in Signing(sec, a.log, authorized, q)
    ensures s.query == q && q.author == a.log.author && q.through <= |a.past|
    ensures s.digests == Digests(sec, Carried(Window(a.past, q.topics, q.after, q.through)))
  {
    hide Reached, Serve, Window, Servable;
    ReachedFaithful(a.log, a.past);
    ServedWindow(sec, a.log, a.past, authorized, q);
  }

  /** The packets a verified offer carries are the author's own records. */
  lemma {:induction false} DigestsName(sec: Security, ps: seq<Recovered>, rs: seq<Recovered>)
    requires CollisionFree(sec) && Digests(sec, ps) == Digests(sec, rs)
    ensures ps == rs
  {
    hide Framed;
    assert |ps| == |Digests(sec, ps)| == |rs|;
    forall i | 0 <= i < |ps| ensures ps[i] == rs[i] {
      assert Digests(sec, ps)[i] == Digests(sec, rs)[i];
      FramedInjective(PACKET_DOMAIN, ps[i].context, ps[i].ciphertext, rs[i].context, rs[i].ciphertext);
    }
  }

  lemma SameQuery(sec: Security, p: RangeQuery, q: RangeQuery)
    requires CollisionFree(sec) && RequestOf(sec, p) == RequestOf(sec, q)
    ensures p == q
  {
    SelectionInjective(sec, p.topics, q.topics);
  }

  /** What verification offers is the window of the author's whole past. */
  lemma OfferedIsWindow(sec: Security, w: World, e: Event)
    requires Sound(sec, w) && CollisionFree(sec) && Unforged(sec, w, e) && e.Recovers?
    requires Verify(sec, e.query, e.reply).Ok? && Verify(sec, e.query, e.reply).value.Offered?
    ensures e.query.author in w.authors && e.query.through <= |w.authors[e.query.author].past|
    ensures Verify(sec, e.query, e.reply).value.packets
         == Carried(Window(w.authors[e.query.author].past, e.query.topics, e.query.after, e.query.through))
  {
    hide Verify, AuthorsSound, JournalSound, Window, OfferIn, RequestOf, Digests, CollisionFree;
    OfferedWasSigned(sec, e.query, e.reply);
    var ps := Verify(sec, e.query, e.reply).value.packets;
    var s :| s in w.signed && RequestOf(sec, s.query) == RequestOf(sec, e.query) && s.digests == Digests(sec, ps);
    SameQuery(sec, s.query, e.query);
    DigestsName(sec, ps, Carried(Window(w.authors[e.query.author].past, e.query.topics, e.query.after, e.query.through)));
  }

  lemma CoversExtends(sec: Security, j: Journal, next: Journal, a: Id32, past: seq<Record>, later: seq<Record>, topics: set<Topic>, n: nat)
    requires Covers(sec, j, a, past, topics, n) && past <= later
    requires forall k :: k in j.records ==> k in next.records && next.records[k] == j.records[k]
    ensures Covers(sec, next, a, later, topics, n)
  {
    hide Evidence;
    forall i | 0 <= i < n && later[i].context.topic in topics ensures Has(sec, next, a, later[i].context, later[i].ciphertext) {
      assert later[i] == past[i];
      assert Has(sec, j, a, past[i].context, past[i].ciphertext);
    }
  }

  /** A contiguous window extends the coverage it continues. */
  lemma CoversWindow(sec: Security, j: Journal, a: Id32, past: seq<Record>, topics: set<Topic>, after: nat, through: nat)
    requires Numbered(past) && after <= through <= |past| && Covers(sec, j, a, past, topics, after)
    requires var rs := Window(past, topics, after, through);
             forall i :: 0 <= i < |rs| ==> Has(sec, j, a, rs[i].context, rs[i].ciphertext)
    ensures Covers(sec, j, a, past, topics, through)
  {
    hide Evidence, Pick, Has;
    var rs := Window(past, topics, after, through);
    forall i | 0 <= i < through && past[i].context.topic in topics ensures Has(sec, j, a, past[i].context, past[i].ciphertext) {
      if i >= after {
        assert past[..through][i] == past[i];
        PickMember(past[..through], topics, after, past[i]);
        var k :| 0 <= k < |rs| && rs[k] == past[i];
      }
    }
  }

  lemma PreparedCovers(sec: Security, w: World, e: Event)
    requires Sound(sec, w) && CollisionFree(sec) && Unforged(sec, w, e) && e.Recovers?
    requires var next := Prepare(sec, w.journal, e.ownerMatches, e.endpoint, e.query, e.reply, e.openings); next.Ok? && next.value.Prepared?
    ensures var next := Prepare(sec, w.journal, e.ownerMatches, e.endpoint, e.query, e.reply, e.openings).value.received;
            && (forall k :: k in w.journal.records ==> k in next.records && next.records[k] == w.journal.records[k])
            && next.progress == w.journal.progress[KeyOf(sec, e.query) := e.query.through]
            && e.query.author in w.authors
            && Covers(sec, next, e.query.author, w.authors[e.query.author].past, e.query.topics, e.query.through)
  {
    hide Verify, AbsorbedAll, Window, Covers, Unforged, CollisionFree, Has, Evidence, SelectionDigest, Reached;
    OfferedIsWindow(sec, w, e);
    var q := e.query;
    var ps := Verify(sec, q, e.reply).value.packets;
    var past := w.authors[q.author].past;
    AbsorbedAllHas(sec, w.journal, q.author, e.endpoint, ps, e.openings, 0);
    var end := AbsorbedAll(sec, w.journal, q.author, e.endpoint, ps, e.openings, 0).value;
    OldCoverage(sec, w, q);
    CoversExtends(sec, w.journal, end, q.author, past, past, q.topics, q.after);
    ReachedNumbered(w.authors[q.author].log, past);
    CoversWindow(sec, end, q.author, past, q.topics, q.after, q.through);
    CoversExtends(sec, end, end.(progress := end.progress[KeyOf(sec, q) := q.through]), q.author, past, past, q.topics, q.through);
  }

  lemma OldCoverage(sec: Security, w: World, q: RangeQuery)
    requires JournalSound(sec, w) && q.author in w.authors && q.after == ProgressOf(w.journal, KeyOf(sec, q))
    ensures Covers(sec, w.journal, q.author, w.authors[q.author].past, q.topics, q.after)
  {
    hide Evidence;
  }

  lemma ReachedNumbered(log: Log, past: seq<Record>)
    requires Reached(log, past)
    ensures Numbered(past)
  {
  }

  // -------------------------------------------------------------- all events

  /** Changing one author's state, only ever extending its past. */
  lemma AuthorStep(sec: Security, w: World, a: Id32, b: Author)
    requires Sound(sec, w) && a in w.authors && Reached(b.log, b.past) && b.log.author == a && w.authors[a].past <= b.past
    ensures Sound(sec, w.(authors := w.authors[a := b]))
  {
    hide Reached, Window, Has, Digests, SelectionDigest;
    var next := w.(authors := w.authors[a := b]);
    forall s | s in next.signed ensures TrulySigned(sec, next, s) {
      assert TrulySigned(sec, w, s);
      if s.query.author == a { WindowStable(w.authors[a].past, b.past, s.query.topics, s.query.after, s.query.through); }
    }
    forall c, topics | (c, SelectionDigest(sec, topics)) in next.journal.progress
      ensures c in next.authors && Covers(sec, next.journal, c, next.authors[c].past, topics, next.journal.progress[(c, SelectionDigest(sec, topics))])
    {
      CoversExtends(sec, w.journal, next.journal, c, w.authors[c].past, next.authors[c].past, topics, w.journal.progress[(c, SelectionDigest(sec, topics))]);
    }
  }

  lemma ServeStep(sec: Security, w: World, a: Id32, authorized: bool, q: RangeQuery)
    requires Sound(sec, w) && a in w.authors
    ensures Sound(sec, w.(signed := w.signed + Signing(sec, w.authors[a].log, authorized, q)))
  {
    hide Reached, Window, Has, Digests, SelectionDigest, Signing, Covers;
    var next := w.(signed := w.signed + Signing(sec, w.authors[a].log, authorized, q));
    forall s | s in next.signed ensures TrulySigned(sec, next, s) {
      if s in w.signed { assert TrulySigned(sec, w, s); } else { SigningTrue(sec, w.authors[a], authorized, q, s); }
    }
    assert JournalSound(sec, next);
  }

  lemma HearStep(sec: Security, w: World, member: Id32, c: Context, packet: seq<byte>)
    requires Sound(sec, w) && Recorded(sec, w.journal, member, c, packet).Ok?
    ensures Sound(sec, w.(journal := Recorded(sec, w.journal, member, c, packet).value))
  {
    hide Reached, Window, Has, Digests, SelectionDigest, Covers, Evidence;
    var next := w.(journal := Recorded(sec, w.journal, member, c, packet).value);
    forall s | s in next.signed ensures TrulySigned(sec, next, s) { assert TrulySigned(sec, w, s); }
    forall a, topics | (a, SelectionDigest(sec, topics)) in next.journal.progress
      ensures a in next.authors && Covers(sec, next.journal, a, next.authors[a].past, topics, next.journal.progress[(a, SelectionDigest(sec, topics))])
    {
      CoversExtends(sec, w.journal, next.journal, a, w.authors[a].past, w.authors[a].past, topics, w.journal.progress[(a, SelectionDigest(sec, topics))]);
    }
  }

  lemma RecoverStep(sec: Security, w: World, e: Event)
    requires Sound(sec, w) && CollisionFree(sec) && Unforged(sec, w, e) && e.Recovers?
    requires var next := Prepare(sec, w.journal, e.ownerMatches, e.endpoint, e.query, e.reply, e.openings); next.Ok? && next.value.Prepared?
    ensures Sound(sec, w.(journal := Prepare(sec, w.journal, e.ownerMatches, e.endpoint, e.query, e.reply, e.openings).value.received))
  {
    hide Reached, Window, Has, Digests, SelectionDigest, Covers, Prepare, Unforged, CollisionFree;
    PreparedCovers(sec, w, e);
    var q := e.query;
    var next := w.(journal := Prepare(sec, w.journal, e.ownerMatches, e.endpoint, q, e.reply, e.openings).value.received);
    forall s | s in next.signed ensures TrulySigned(sec, next, s) { assert TrulySigned(sec, w, s); }
    forall a, topics | (a, SelectionDigest(sec, topics)) in next.journal.progress
      ensures a in next.authors && Covers(sec, next.journal, a, next.authors[a].past, topics, next.journal.progress[(a, SelectionDigest(sec, topics))])
    {
      if (a, SelectionDigest(sec, topics)) == KeyOf(sec, q) {
        SelectionInjective(sec, topics, q.topics);
      } else {
        CoversExtends(sec, w.journal, next.journal, a, w.authors[a].past, w.authors[a].past, topics, w.journal.progress[(a, SelectionDigest(sec, topics))]);
      }
    }
  }

  /** Every event keeps the world sound. */
  lemma StepSound(sec: Security, w: World, e: Event)
    requires Sound(sec, w) && CollisionFree(sec) && Unforged(sec, w, e)
    ensures Sound(sec, Next(sec, w, e))
  {
    hide TrulySigned, JournalSound, CollisionFree, Unforged, Reached, Published, Restarted, Prepare, Recorded, Signing;
    match e
    case Publishes(a, c, ciphertext) =>
      if a in w.authors { PublishedGrows(w.authors[a], c, ciphertext); AuthorStep(sec, w, a, Published(w.authors[a], c, ciphertext)); }
    case Restarts(a, inbox) =>
      if a in w.authors { RestartedKeeps(w.authors[a], inbox); AuthorStep(sec, w, a, Restarted(w.authors[a], inbox)); }
    case Serves(a, authorized, q) =>
      if a in w.authors { ServeStep(sec, w, a, authorized, q); }
    case Hears(member, c, packet) =>
      if Recorded(sec, w.journal, member, c, packet).Ok? { HearStep(sec, w, member, c, packet); }
    case Recovers(ownerMatches, endpoint, q, reply, openings) =>
      var next := Prepare(sec, w.journal, ownerMatches, endpoint, q, reply, openings);
      if next.Ok? && next.value.Prepared? { RecoverStep(sec, w, e); }
  }

  /** The worlds a run passes through, oldest first. */
  ghost predicate IsRun(sec: Security, worlds: seq<World>, events: seq<Event>) {
    && |worlds| == |events| + 1
    && forall i :: 0 <= i < |events| ==> AuthorsSound(worlds[i]) && Unforged(sec, worlds[i], events[i]) && worlds[i + 1] == Next(sec, worlds[i], events[i])
  }

  /** Authors with nothing published yet, and a reader with no evidence. */
  ghost predicate Initial(w: World) {
    && w.signed == {} && w.journal.records == map[] && w.journal.progress == map[]
    && forall a :: a in w.authors ==> w.authors[a] == Author(Retention.Empty(w.journal.workspace, a, w.journal.epoch), [])
  }

  lemma InitialSound(sec: Security, w: World)
    requires Initial(w)
    ensures Sound(sec, w)
  {
    hide Reached;
    forall a | a in w.authors ensures Reached(w.authors[a].log, w.authors[a].past) { EmptyReached(w.journal.workspace, a, w.journal.epoch); }
  }

  lemma {:induction false} RunSound(sec: Security, worlds: seq<World>, events: seq<Event>, n: nat)
    requires CollisionFree(sec) && IsRun(sec, worlds, events) && Initial(worlds[0]) && n <= |events|
    ensures Sound(sec, worlds[n])
  {
    hide CollisionFree, Sound, AuthorsSound, Unforged, Next, Initial;
    if n == 0 {
      InitialSound(sec, worlds[0]);
    } else {
      RunSound(sec, worlds, events, n - 1);
      StepSound(sec, worlds[n - 1], events[n - 1]);
    }
  }

  /** No loss, end to end: however publishing, eviction, restarts, serving, live
      traffic and recovery interleave, if a reader's progress for an author and
      a set of topics is n, then every publication that author ever appended on
      those topics with a number up to n has its exact evidence in the journal. */
  lemma NothingIsLost(sec: Security, worlds: seq<World>, events: seq<Event>, a: Id32, topics: set<Topic>, i: nat)
    requires CollisionFree(sec) && IsRun(sec, worlds, events) && Initial(worlds[0])
    requires var w := worlds[|events|];
             && (a, SelectionDigest(sec, topics)) in w.journal.progress
             && i < w.journal.progress[(a, SelectionDigest(sec, topics))]
    ensures var w := worlds[|events|];
            && a in w.authors && i < |w.authors[a].past| && w.authors[a].past[i].sequence == i + 1
            && (w.authors[a].past[i].context.topic in topics ==>
                  Has(sec, w.journal, a, w.authors[a].past[i].context, w.authors[a].past[i].ciphertext))
  {
    hide CollisionFree, Initial, Reached, Has, SelectionDigest, Unforged, Next;
    RunSound(sec, worlds, events, |events|);
    var w := worlds[|events|];
    assert Covers(sec, w.journal, a, w.authors[a].past, topics, w.journal.progress[(a, SelectionDigest(sec, topics))]);
    ReachedNumbered(w.authors[a].log, w.authors[a].past);
  }
}
