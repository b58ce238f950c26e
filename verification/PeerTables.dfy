/**
 * Which peer owns which host route: the kernel's table, the node's index of it
 * and the book of each peer's routes (core/transport/src/linux.rs).
 */
module PeerTables {
  import opened Results
  import opened Prefixes

  type Key = seq<bv8>
  type Routes = map<AllowedIp, Key>
  type Book = map<Key, set<AllowedIp>>

  /** What one interface holds: its peers and the owner of every route. */
  datatype Table = Table(peers: set<Key>, routes: Routes)

  const EMPTY := Table({}, map[])

  const MAXIMUM_PEERS: nat := 4096

  function Release(m: Routes, k: Key): Routes {
    map r | r in m && m[r] != k :: m[r]
  }

  function Assign(m: Routes, k: Key, routes: seq<AllowedIp>): Routes {
    m + (map r | r in routes :: k)
  }

  lemma AssignGrows(m: Routes, k: Key, routes: seq<AllowedIp>, i: nat)
    requires i < |routes|
    ensures Assign(m, k, routes[..i + 1]) == Assign(m, k, routes[..i])[routes[i] := k]
  {
  }

  /** `wg set peer k allowed-ips …` replaces the peer's routes and takes the listed ones from whoever had them. */
  function KernelSet(t: Table, k: Key, routes: seq<AllowedIp>): Table {
    Table(t.peers + {k}, Assign(Release(t.routes, k), k, routes))
  }

  function KernelRemove(t: Table, k: Key): Table {
    Table(t.peers - {k}, Release(t.routes, k))
  }

  function Entry(routes: seq<AllowedIp>): set<AllowedIp> {
    set r | r in routes
  }

  /** The table and the book say the same thing. */
  ghost predicate Inverse(m: Routes, book: Book) {
    && (forall r :: r in m ==> m[r] in book && r in book[m[r]])
    && (forall k, r :: k in book && r in book[k] ==> r in m && m[r] == k)
  }

  /** A bounded number of peers with between one and sixteen routes each. */
  ghost predicate Bounded(book: Book) {
    |book| <= MAXIMUM_PEERS && forall k :: k in book ==> 1 <= |book[k]| <= 16
  }

  /** The table's peers are the book's owners, and its routes are the book inverted. */
  ghost predicate Kept(t: Table, book: Book) {
    t.peers == book.Keys && Inverse(t.routes, book) && Bounded(book)
  }

  lemma KeptUnique(t: Table, u: Table, book: Book)
    requires Kept(t, book) && Kept(u, book)
    ensures t == u
  {
  }

  lemma {:induction false} EntrySize(routes: seq<AllowedIp>)
    requires routes != []
    ensures 1 <= |Entry(routes)| <= |routes|
  {
    var last, init := routes[|routes| - 1], routes[..|routes| - 1];
    assert routes == init + [last];
    assert Entry(routes) == Entry(init) + {last};
    if init == [] {
      assert Entry(init) == {};
    } else {
      EntrySize(init);
    }
  }

  /** The node may take these routes for a new peer. */
  predicate Free(t: Table, k: Key, routes: seq<AllowedIp>) {
    k !in t.peers && forall r :: r in routes ==> r !in t.routes
  }

  /**
   * Setting a new peer with free routes takes nothing from anyone: the kernel
   * ends with the book's new entry, and every older route keeps its owner.
   */
  lemma SetFree(t: Table, book: Book, k: Key, routes: seq<AllowedIp>)
    requires Kept(t, book) && Free(t, k, routes) && |t.peers| < MAXIMUM_PEERS && 0 < |routes| <= 16
    ensures KernelSet(t, k, routes).routes == Assign(t.routes, k, routes)
    ensures Kept(KernelSet(t, k, routes), book[k := Entry(routes)])
    ensures forall r :: r in t.routes ==>
      r in KernelSet(t, k, routes).routes && KernelSet(t, k, routes).routes[r] == t.routes[r]
  {
    assert Release(t.routes, k) == t.routes;
    BoundedGrows(book, k, routes);
    InverseAssign(t.routes, book, k, routes);
  }

  lemma BoundedGrows(book: Book, k: Key, routes: seq<AllowedIp>)
    requires Bounded(book) && k !in book && |book| < MAXIMUM_PEERS && 0 < |routes| <= 16
    ensures Bounded(book[k := Entry(routes)]) && book[k := Entry(routes)].Keys == book.Keys + {k}
  {
    EntrySize(routes);
    assert book[k := Entry(routes)].Keys == book.Keys + {k};
  }

  lemma InverseAssign(m: Routes, book: Book, k: Key, routes: seq<AllowedIp>)
    requires Inverse(m, book) && k !in book && forall r :: r in routes ==> r !in m
    ensures Inverse(Assign(m, k, routes), book[k := Entry(routes)])
  {
  }

  lemma RemoveKnown(t: Table, book: Book, k: Key)
    requires Kept(t, book) && k in t.peers
    ensures Kept(KernelRemove(t, k), book - {k})
    ensures forall r :: r in t.routes ==>
      (r in KernelRemove(t, k).routes <==> t.routes[r] != k)
  {
  }

  /** The peers added and removed so far. */
  datatype Ledger =
    | Blank
    | Added(before: Ledger, key: Key, routes: seq<AllowedIp>)
    | Removed(before: Ledger, key: Key)
  {
    function Table(): Table {
      match this
      case Blank => EMPTY
      case Added(l, k, routes) => KernelSet(l.Table(), k, routes)
      case Removed(l, k) => KernelRemove(l.Table(), k)
    }

    function Book(): Book {
      match this
      case Blank => map[]
      case Added(l, k, routes) => l.Book()[k := Entry(routes)]
      case Removed(l, k) => l.Book() - {k}
    }

    /** Only new peers with free routes were added, within the bounds, and only known ones removed. */
    ghost predicate Legal() {
      match this
      case Blank => true
      case Added(l, k, routes) =>
        l.Legal() && Free(l.Table(), k, routes) && |l.Table().peers| < MAXIMUM_PEERS && 0 < |routes| <= 16
      case Removed(l, k) => l.Legal() && k in l.Table().peers
    }
  }

  /** Whatever was added and removed, the table is the book inverted, within its bounds. */
  lemma {:induction false} LegalIsKept(l: Ledger)
    requires l.Legal()
    ensures Kept(l.Table(), l.Book())
  {
    match l {
      case Blank =>
      case Added(before, k, routes) =>
        LegalIsKept(before);
        SetFree(before.Table(), before.Book(), k, routes);
      case Removed(before, k) =>
        LegalIsKept(before);
        RemoveKnown(before.Table(), before.Book(), k);
    }
  }

  lemma LegalPeers(l: Ledger)
    requires l.Legal()
    ensures l.Table().peers == l.Book().Keys && |l.Table().peers| <= MAXIMUM_PEERS
  {
    LegalIsKept(l);
    assert |l.Book()| == |l.Book().Keys|;
  }

  /** A peer added and removed leaves table and book as they were. */
  lemma AddedThenRemoved(l: Ledger, k: Key, routes: seq<AllowedIp>)
    requires Added(l, k, routes).Legal()
    ensures Removed(Added(l, k, routes), k).Table() == l.Table()
    ensures Removed(Added(l, k, routes), k).Book() == l.Book()
  {
    TableRestored(l, k, routes);
    BookRestored(l, k, routes);
    var a := Added(l, k, routes);
    assert Removed(a, k).Table() == KernelRemove(a.Table(), k) && a.Table() == KernelSet(l.Table(), k, routes);
    assert Removed(a, k).Book() == a.Book() - {k} && a.Book() == l.Book()[k := Entry(routes)];
  }

  lemma BookRestored(l: Ledger, k: Key, routes: seq<AllowedIp>)
    requires l.Legal() && k !in l.Table().peers
    ensures l.Book()[k := Entry(routes)] - {k} == l.Book()
  {
    LegalPeers(l);
  }

  lemma TableRestored(l: Ledger, k: Key, routes: seq<AllowedIp>)
    requires l.Legal() && Free(l.Table(), k, routes) && |l.Table().peers| < MAXIMUM_PEERS && 0 < |routes| <= 16
    ensures KernelRemove(KernelSet(l.Table(), k, routes), k) == l.Table()
  {
    LegalIsKept(l);
    RemoveUndoesSet(l.Table(), l.Book(), k, routes);
  }

  /** Removing the peer just added restores the table exactly. */
  lemma RemoveUndoesSet(t: Table, book: Book, k: Key, routes: seq<AllowedIp>)
    requires Kept(t, book) && Free(t, k, routes) && |t.peers| < MAXIMUM_PEERS && 0 < |routes| <= 16
    ensures KernelRemove(KernelSet(t, k, routes), k) == t
  {
    SetFree(t, book, k, routes);
    RemoveKnown(KernelSet(t, k, routes), book[k := Entry(routes)], k);
    assert book[k := Entry(routes)] - {k} == book;
    KeptUnique(KernelRemove(KernelSet(t, k, routes), k), t, book);
  }

  // --- The kernel -----------------------------------------------------------

  /** `Read` asks whether the kernel forwards every address family among the networks. */
  datatype Command =
    | LinkAdd(name: string)
    | KeySet(name: string, port: nat)
    | AddressAdd(name: string, address: TunnelAddress)
    | LinkUp(name: string, mtu: nat)
    | LinkDelete(name: string)
    | PeerSet(name: string, key: Key, allowed: seq<AllowedIp>, keepalive: Option<nat>)
    | PeerRemove(name: string, key: Key)
    | ForwardOn(name: string, uplink: string, networks: seq<AllowedIp>)
    | ForwardOff
    | Read(networks: seq<AllowedIp>)
    | Inspect
  {
    /** Commands that configure a link, which the tables do not record. */
    predicate Configuring() {
      KeySet? || AddressAdd? || LinkUp?
    }
  }

  /** The interfaces with their tables, and the interface traffic is forwarded from. */
  datatype KernelState = KernelState(links: map<string, Table>, forwarding: Option<string>) {
    predicate Accepts(c: Command) {
      match c
      case LinkAdd(n) => n !in links
      case ForwardOn(_, _, _) => true
      case ForwardOff => true
      case Read(_) => true
      case Inspect => true
      case _ => c.name in links
    }

    function After(c: Command): KernelState
      requires Accepts(c)
    {
      match c
      case LinkAdd(n) => this.(links := links[n := EMPTY])
      case LinkDelete(n) => this.(links := links - {n})
      case PeerSet(n, k, allowed, _) => this.(links := links[n := KernelSet(links[n], k, allowed)])
      case PeerRemove(n, k) => this.(links := links[n := KernelRemove(links[n], k)])
      case ForwardOn(n, _, _) => this.(forwarding := Some(n))
      case ForwardOff => this.(forwarding := None)
      case _ => this
    }
  }

  /** A command about one interface leaves the others alone. */
  lemma OtherLinks(s: KernelState, c: Command)
    requires s.Accepts(c) && !c.ForwardOff? && !c.ForwardOn? && !c.Inspect? && !c.Read?
    ensures s.After(c).links - {c.name} == s.links - {c.name}
  {
  }

  /** A command with the state it was issued in. */
  datatype Event = Event(before: KernelState, command: Command)

  /** Forwarding is turned on over an existing interface, and no interface is deleted under it. */
  predicate OrderedEvent(e: Event) {
    match e.command
    case ForwardOn(n, _, _) => n in e.before.links
    case LinkDelete(n) => e.before.forwarding != Some(n)
    case _ => true
  }

  predicate Ordered(log: seq<Event>) {
    forall e :: e in log ==> OrderedEvent(e)
  }

  /** The commands and checks of a log, in order. */
  function Commands(log: seq<Event>): (cs: seq<Command>)
    ensures |cs| == |log|
  {
    seq(|log|, i requires 0 <= i < |log| => log[i].command)
  }

  /** The log grew from `was` to `log` by exactly these commands and checks. */
  ghost predicate Issued(was: seq<Event>, log: seq<Event>, cs: seq<Command>) {
    was <= log && |log| == |was| + |cs| && Commands(log) == Commands(was) + cs
  }

  lemma IssuedOne(log: seq<Event>, e: Event)
    ensures Issued(log, log + [e], [e.command])
  {
  }

  lemma IssuedMore(was: seq<Event>, log: seq<Event>, more: seq<Event>, cs: seq<Command>, ds: seq<Command>)
    requires Issued(was, log, cs) && Issued(log, more, ds)
    ensures Issued(was, more, cs + ds)
  {
  }

  /** `outcomes` decides, for each entry of the log, whether it succeeds if the kernel accepts it at all. */
  class Kernel {
    const outcomes: nat -> bool
    var state: KernelState
    var log: seq<Event>

    constructor (state: KernelState, outcomes: nat -> bool)
      ensures this.state == state && log == [] && this.outcomes == outcomes
    {
      this.outcomes := outcomes;
      this.state := state;
      log := [];
    }

    /** Nothing goes wrong between two entries of the log. */
    predicate Fine(from: nat, to: nat) {
      forall i :: from <= i < to ==> outcomes(i)
    }

    /** Nothing goes wrong any more. */
    ghost predicate FineFrom(from: nat) {
      forall i :: from <= i ==> outcomes(i)
    }

    /** At most one thing goes wrong. */
    ghost predicate OneFault(from: nat) {
      forall i, j :: from <= i < j ==> outcomes(i) || outcomes(j)
    }

    /** And after it nothing does. */
    lemma AfterFault(from: nat, n: nat)
      requires OneFault(from) && from <= n && !outcomes(n)
      ensures FineFrom(n + 1)
    {
    }

    /** A command succeeds or fails as the environment decides; a failed one changes nothing. */
    method Run(c: Command) returns (ok: bool)
      modifies this
      ensures log == old(log) + [Event(old(state), c)]
      ensures ok == (outcomes(|old(log)|) && old(state).Accepts(c))
      ensures ok ==> old(state).Accepts(c) && state == old(state).After(c)
      ensures !ok ==> state == old(state)
      ensures Issued(old(log), log, [c])
    {
      IssuedOne(log, Event(state, c));
      ok := outcomes(|log|) && state.Accepts(c);
      log := log + [Event(state, c)];
      if ok { state := state.After(c); }
    }

    /** Cancellation, deadline and system settings, as the environment decides. */
    method Permits() returns (ok: bool)
      modifies this
      ensures ok == outcomes(|old(log)|)
      ensures log == old(log) + [Event(old(state), Inspect)] && state == old(state)
      ensures Issued(old(log), log, [Inspect])
    {
      ok := Run(Inspect);
    }
  }
}
