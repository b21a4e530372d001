/**
 From a country database to a trie.  The database is what the reader's traversal
 yields: rows of a network and its country code, a row the decoder rejects, and a flag
 for an error met while traversing.
 */
module Loader {
  import opened Wrappers
  import opened Bits
  import opened Netip
  import opened Octets
  import opened Canonical
  import opened Trie

  /** A network as the reader presents it: the address bytes and the mask's leading ones. */
  datatype IPNet = IPNet(ip: seq<Byte>, ones: nat)

  datatype Row = Row(net: Option<IPNet>, country: string) | BadRow

  datatype Database = Database(rows: seq<Row>, traversalFails: bool)

  datatype LoadError = NoCountries | OpenFailed | DecodeFailed | NotRepresentable | TraversalFailed

  function PrefixFromIPNet(n: Option<IPNet>): Option<Prefix> {
    if n == None then None
    else match AddrFromBytes(n.value.ip)
         case None => None
         case Some(a) => Some(PrefixFrom(a, n.value.ones))
  }

  /** The prefixes the traversal inserts, in order, or the error that ends it. */
  function Selected(rows: seq<Row>, wanted: set<string>): Result<seq<Prefix>, LoadError> {
    if rows == [] then Ok([])
    else
      var n := |rows| - 1;
      match Selected(rows[..n], wanted)
      case Err(e) => Err(e)
      case Ok(ps) =>
        if rows[n].BadRow? then Err(DecodeFailed)
        else if rows[n].country !in wanted then Ok(ps)
        else match PrefixFromIPNet(rows[n].net)
             case None => Err(NotRepresentable)
             case Some(p) => Ok(ps + [p])
  }

  /** The prefixes a whole load inserts. */
  function Loaded(db: Option<Database>, countries: seq<string>): Result<seq<Prefix>, LoadError> {
    if countries == [] then Err(NoCountries)
    else if db == None then Err(OpenFailed)
    else match Selected(db.value.rows, set c | c in countries)
         case Err(e) => Err(e)
         case Ok(ps) => if db.value.traversalFails then Err(TraversalFailed) else Ok(ps)
  }

  /** The blocklist a load publishes: the recorded prefixes, or nothing on any error. */
  function Blocklist(db: Option<Database>, countries: seq<string>): Option<set<Prefix>> {
    match Loaded(db, countries)
    case Ok(ps) => Some(Recorded(ps))
    case Err(_) => None
  }

  method LoadCountryBlocklist(db: Option<Database>, countries: seq<string>) returns (r: Result<Trie, LoadError>)
    ensures Loaded(db, countries).Err? ==> r == Err(Loaded(db, countries).error)
    ensures Loaded(db, countries).Ok? ==>
              && r.Ok? && fresh(r.value) && fresh(r.value.nodes.Values)
              && r.value.Valid() && r.value.entries == Recorded(Loaded(db, countries).value)
  {
    if countries == [] {
      return Err(NoCountries);
    }
    var wanted := {};
    for i := 0 to |countries|
      invariant wanted == set c | c in countries[..i]
    {
      wanted := wanted + {countries[i]};
    }
    assert countries[..|countries|] == countries;
    if db == None {
      return Err(OpenFailed);
    }
    r := Traverse(db.value.rows, wanted);
    if r.Ok? && db.value.traversalFails {
      return Err(TraversalFailed);
    }
  }

  /** The loop over the networks. */
  method Traverse(rows: seq<Row>, wanted: set<string>) returns (r: Result<Trie, LoadError>)
    ensures Selected(rows, wanted).Err? ==> r == Err(Selected(rows, wanted).error)
    ensures Selected(rows, wanted).Ok? ==>
              && r.Ok? && fresh(r.value) && fresh(r.value.nodes.Values)
              && r.value.Valid() && r.value.entries == Recorded(Selected(rows, wanted).value)
  {
    var trie := new Trie();
    var i := 0;
    ghost var ps: seq<Prefix> := [];
    assert Recorded(ps) == {};
    while i < |rows|
      invariant 0 <= i <= |rows|
      invariant Selected(rows[..i], wanted) == Ok(ps)
      invariant fresh(trie) && fresh(trie.nodes.Values)
      invariant trie.Valid() && trie.entries == Recorded(ps)
    {
      SelectedSnoc(rows, i, wanted);
      if Selected(rows[..i + 1], wanted).Err? {
        SelectedErrStays(rows, i + 1, wanted);
      }
      if rows[i].BadRow? {
        return Err(DecodeFailed);
      }
      if rows[i].country in wanted {
        var prefix := PrefixFromIPNet(rows[i].net);
        if prefix == None {
          return Err(NotRepresentable);
        }
        InsertNext(trie, prefix.value, ps);
        ps := ps + [prefix.value];
      }
      i := i + 1;
    }
    assert rows[..|rows|] == rows;
    return Ok(trie);
  }

  /** One insertion, in terms of the insertions so far. */
  method InsertNext(trie: Trie, p: Prefix, ghost ps: seq<Prefix>)
    requires trie.Valid() && trie.entries == Recorded(ps)
    modifies trie, trie.nodes.Values
    ensures trie.Valid() && trie.entries == Recorded(ps + [p])
    ensures fresh(trie.nodes.Values - old(trie.nodes.Values))
  {
    RecordedConcat(ps, [p]);
    trie.Insert(p);
  }

  lemma SelectedSnoc(rows: seq<Row>, i: nat, wanted: set<string>)
    requires i < |rows| && Selected(rows[..i], wanted).Ok?
    ensures var ps := Selected(rows[..i], wanted).value;
      Selected(rows[..i + 1], wanted) ==
      if rows[i].BadRow? then Err(DecodeFailed)
      else if rows[i].country !in wanted then Ok(ps)
      else match PrefixFromIPNet(rows[i].net) case None => Err(NotRepresentable) case Some(p) => Ok(ps + [p])
  {
    assert rows[..i + 1][..i] == rows[..i];
  }

  lemma {:induction false} SelectedErrStays(rows: seq<Row>, k: nat, wanted: set<string>)
    requires k <= |rows| && Selected(rows[..k], wanted).Err?
    ensures Selected(rows, wanted) == Selected(rows[..k], wanted)
  {
    if k == |rows| {
      assert rows[..k] == rows;
    } else {
      assert rows[..|rows| - 1][..k] == rows[..k];
      SelectedErrStays(rows[..|rows| - 1], k, wanted);
    }
  }

  // ---------------------------------------------------------------------------
  // What a load without errors means

  predicate Matches(row: Row, wanted: set<string>) {
    row.Row? && row.country in wanted
  }

  /** A network of 4 or 16 address bytes. */
  predicate Representable(n: Option<IPNet>) {
    n.Some? && (|n.value.ip| == 4 || |n.value.ip| == 16)
  }

  /** The prefix of the network's bytes and mask length, invalid when the mask is longer than the address. */
  predicate Denotes(p: Prefix, n: IPNet) {
    p.addr != Zero && AddrBytes(p.addr) == n.ip && p.bits == if n.ones <= 8 * |n.ip| then n.ones else -1
  }

  lemma PrefixOfNet(n: Option<IPNet>, p: Prefix)
    ensures PrefixFromIPNet(n).Some? <==> Representable(n)
    ensures PrefixFromIPNet(n) == Some(p) <==> Representable(n) && Denotes(p, n.value)
  {
    if Representable(n) {
      FromBytesRoundTrip(n.value.ip);
      if Denotes(p, n.value) {
        SameBytesSameAddr(p.addr, AddrFromBytes(n.value.ip).value);
      }
    }
  }

  /** A row the traversal gets past. */
  predicate Fine(row: Row, wanted: set<string>) {
    row.Row? && (row.country in wanted ==> Representable(row.net))
  }

  /** The traversal succeeds exactly when every row decodes and every wanted one is representable, and inserts the networks of the wanted rows. */
  lemma {:induction false} SelectedIsMatching(rows: seq<Row>, wanted: set<string>, p: Prefix)
    ensures Selected(rows, wanted).Ok? <==> forall k | 0 <= k < |rows| :: Fine(rows[k], wanted)
    ensures Selected(rows, wanted).Ok? ==>
              (p in Selected(rows, wanted).value <==>
               exists k :: 0 <= k < |rows| && Matches(rows[k], wanted) && Denotes(p, rows[k].net.value))
  {
    if rows == [] {
    } else {
      var n := |rows| - 1;
      SelectedIsMatching(rows[..n], wanted, p);
      assert rows == rows[..n] + [rows[n]];
      forall k | 0 <= k < n ensures rows[k] == rows[..n][k] {}
      if rows[n].Row? {
        PrefixOfNet(rows[n].net, p);
      }
    }
  }

  /** The first row the traversal does not get past decides the error. */
  lemma {:induction false} FirstBadRow(rows: seq<Row>, wanted: set<string>)
    requires Selected(rows, wanted).Err?
    ensures exists k :: 0 <= k < |rows| && !Fine(rows[k], wanted) && (forall j | 0 <= j < k :: Fine(rows[j], wanted))
                 && Selected(rows, wanted) == Err(if rows[k].BadRow? then DecodeFailed else NotRepresentable)
  {
    var n := |rows| - 1;
    forall k | 0 <= k < n ensures rows[k] == rows[..n][k] {}
    if Selected(rows[..n], wanted).Err? {
      FirstBadRow(rows[..n], wanted);
      var k :| 0 <= k < n && !Fine(rows[..n][k], wanted) && (forall j | 0 <= j < k :: Fine(rows[..n][j], wanted))
            && Selected(rows[..n], wanted) == Err(if rows[..n][k].BadRow? then DecodeFailed else NotRepresentable);
      assert !Fine(rows[k], wanted);
    } else {
      SelectedIsMatching(rows[..n], wanted, Prefix(Zero, 0));
      if rows[n].Row? {
        PrefixOfNet(rows[n].net, Prefix(Zero, 0));
      }
      assert !Fine(rows[n], wanted);
      assert forall j | 0 <= j < n :: Fine(rows[..n][j], wanted);
    }
  }

  /**
   All or nothing: a load publishes exactly when there are countries, the file opens, no row
   stops the traversal and the traversal meets no error; and then it publishes the records
   of the wanted networks.
   */
  lemma LoadPublishesIff(db: Option<Database>, countries: seq<string>)
    ensures Blocklist(db, countries).Some? <==>
            && countries != [] && db.Some? && !db.value.traversalFails
            && forall k | 0 <= k < |db.value.rows| :: Fine(db.value.rows[k], set c | c in countries)
    ensures Blocklist(db, countries).Some? ==>
              forall c :: c in Blocklist(db, countries).value <==>
                exists p, k :: 0 <= k < |db.value.rows| && db.value.rows[k].country in countries
                            && Denotes(p, db.value.rows[k].net.value) && CanonicalOf(p) == Some(c)
  {
    if db.Some? {
      var rows, wanted := db.value.rows, set c | c in countries;
      SelectedIsMatching(rows, wanted, Prefix(Zero, 0));
      if Blocklist(db, countries).Some? {
        forall c ensures c in Blocklist(db, countries).value <==>
                         exists p, k :: 0 <= k < |rows| && rows[k].country in countries
                                     && Denotes(p, rows[k].net.value) && CanonicalOf(p) == Some(c)
        {
          RecordOfRow(rows, wanted, c);
        }
      }
    }
  }

  /** Which error a load reports. */
  lemma LoadReports(db: Option<Database>, countries: seq<string>)
    ensures Loaded(db, countries) == Err(NoCountries) <==> countries == []
    ensures Loaded(db, countries) == Err(OpenFailed) <==> countries != [] && db == None
    ensures Loaded(db, countries) == Err(TraversalFailed) <==>
            && countries != [] && db.Some? && db.value.traversalFails
            && forall k | 0 <= k < |db.value.rows| :: Fine(db.value.rows[k], set c | c in countries)
  {
    if db.Some? {
      var rows, wanted := db.value.rows, set c | c in countries;
      SelectedIsMatching(rows, wanted, Prefix(Zero, 0));
      if Selected(rows, wanted).Err? {
        FirstBadRow(rows, wanted);
      }
    }
  }

  lemma RecordOfRow(rows: seq<Row>, wanted: set<string>, c: Prefix)
    requires Selected(rows, wanted).Ok? && forall k | 0 <= k < |rows| :: rows[k].Row? && (rows[k].country in wanted ==> rows[k].net.Some?)
    ensures c in Recorded(Selected(rows, wanted).value) <==>
            exists p, k :: 0 <= k < |rows| && rows[k].country in wanted && Denotes(p, rows[k].net.value) && CanonicalOf(p) == Some(c)
  {
    var ps := Selected(rows, wanted).value;
    if c in Recorded(ps) {
      var p :| p in ps && CanonicalOf(p) == Some(c);
      SelectedIsMatching(rows, wanted, p);
    }
    if p, k :| 0 <= k < |rows| && rows[k].country in wanted && Denotes(p, rows[k].net.value) && CanonicalOf(p) == Some(c) {
      SelectedIsMatching(rows, wanted, p);
      assert Matches(rows[k], wanted);
      assert p in ps;
    }
  }

  /** The order and repetition of the rows change neither whether a load succeeds nor what it publishes. */
  lemma TraversalOrder(a: Database, b: Database, countries: seq<string>)
    requires a.traversalFails == b.traversalFails
    requires forall row :: row in a.rows <==> row in b.rows
    ensures Blocklist(Some(a), countries) == Blocklist(Some(b), countries)
  {
    var wanted := set c | c in countries;
    SelectedIsMatching(a.rows, wanted, Prefix(Zero, 0));
    SelectedIsMatching(b.rows, wanted, Prefix(Zero, 0));
    if Selected(a.rows, wanted).Ok? {
      forall k | 0 <= k < |b.rows| ensures Fine(b.rows[k], wanted) {
        assert b.rows[k] in a.rows;
      }
    }
    if Selected(b.rows, wanted).Ok? {
      forall k | 0 <= k < |a.rows| ensures Fine(a.rows[k], wanted) {
        assert a.rows[k] in b.rows;
      }
    }
    if Selected(a.rows, wanted).Ok? && Selected(b.rows, wanted).Ok? {
      var ps, qs := Selected(a.rows, wanted).value, Selected(b.rows, wanted).value;
      forall p ensures p in ps <==> p in qs {
        SameSelection(a.rows, b.rows, wanted, p);
        SameSelection(b.rows, a.rows, wanted, p);
      }
      OrderAndRepetition(ps, qs);
    }
  }

  lemma SameSelection(a: seq<Row>, b: seq<Row>, wanted: set<string>, p: Prefix)
    requires Selected(a, wanted).Ok? && Selected(b, wanted).Ok?
    requires forall row :: row in a ==> row in b
    ensures p in Selected(a, wanted).value ==> p in Selected(b, wanted).value
  {
    SelectedIsMatching(a, wanted, p);
    SelectedIsMatching(b, wanted, p);
    if p in Selected(a, wanted).value {
      var k :| 0 <= k < |a| && Matches(a[k], wanted) && Denotes(p, a[k].net.value);
      assert a[k] in b;
    }
  }

  /** The row is a network holding `ip`, by their bytes. */
  ghost predicate Holds(row: Row, ip: Addr) {
    row.Row? && Representable(row.net) && NetworkHolds(row.net.value.ip, row.net.value.ones, ip)
  }

  /** Networks as the reader yields them with aliases skipped: valid, IPv4 in 4-byte form, no two overlapping. */
  ghost predicate DisjointNetworks(rows: seq<Row>) {
    && (forall k | 0 <= k < |rows| ::
          && rows[k].Row? && Representable(rows[k].net)
          && rows[k].net.value.ones <= 8 * |rows[k].net.value.ip| && !MappedForm(rows[k].net.value.ip))
    && (forall j, k, ip | 0 <= j < k < |rows| :: !(Holds(rows[j], ip) && Holds(rows[k], ip)))
  }

  /** The prefix that denotes a network decides what the network holds. */
  lemma HoldsIsDecides(row: Row, p: Prefix, ip: Addr)
    requires row.Row? && Representable(row.net) && Denotes(p, row.net.value)
    ensures Holds(row, ip) <==> DecidesDirectly(p, ip)
  {
    DecidesByBytes(p, ip);
  }

  function CountMatching(rows: seq<Row>, wanted: set<string>): nat {
    if rows == [] then 0
    else CountMatching(rows[..|rows| - 1], wanted) + if Matches(rows[|rows| - 1], wanted) then 1 else 0
  }

  /** An address held by a network is blocked exactly when that network's country is wanted. */
  lemma BlockedIffWanted(rows: seq<Row>, wanted: set<string>, k: nat, ip: Addr)
    requires DisjointNetworks(rows) && k < |rows| && Holds(rows[k], ip)
    ensures Selected(rows, wanted).Ok?
    ensures Blocks(Recorded(Selected(rows, wanted).value), ip) <==> rows[k].country in wanted
  {
    var ps := SelectionOf(rows, wanted);
    BlockedDirectly(ps, ip);
    var p := NetOf(rows[k]);
    HoldsIsDecides(rows[k], p, ip);
    SelectedIsMatching(rows, wanted, p);
    assert rows[k].country in wanted ==> Matches(rows[k], wanted) && p in ps;
    if q :| q in ps && DecidesDirectly(q, ip) {
      SelectedIsMatching(rows, wanted, q);
      var j :| 0 <= j < |rows| && Matches(rows[j], wanted) && Denotes(q, rows[j].net.value);
      HoldsIsDecides(rows[j], q, ip);
    }
  }

  lemma SelectionOf(rows: seq<Row>, wanted: set<string>) returns (ps: seq<Prefix>)
    requires DisjointNetworks(rows)
    ensures Selected(rows, wanted) == Ok(ps)
  {
    SelectedIsMatching(rows, wanted, Prefix(Zero, 0));
    ps := Selected(rows, wanted).value;
  }

  lemma NetOf(row: Row) returns (p: Prefix)
    requires row.Row? && Representable(row.net)
    ensures Denotes(p, row.net.value) && PrefixFromIPNet(row.net) == Some(p)
  {
    PrefixOfNet(row.net, Prefix(Zero, 0));
    p := PrefixFromIPNet(row.net).value;
    PrefixOfNet(row.net, p);
  }

  /** An address no network holds is never blocked. */
  lemma UnheldIsNotBlocked(rows: seq<Row>, wanted: set<string>, ip: Addr)
    requires Selected(rows, wanted).Ok? && forall k | 0 <= k < |rows| :: !Holds(rows[k], ip)
    ensures !Blocks(Recorded(Selected(rows, wanted).value), ip)
  {
    var ps := Selected(rows, wanted).value;
    BlockedDirectly(ps, ip);
    forall p | p in ps ensures !DecidesDirectly(p, ip) {
      SelectedIsMatching(rows, wanted, p);
      var j :| 0 <= j < |rows| && Matches(rows[j], wanted) && Denotes(p, rows[j].net.value);
      assert Fine(rows[j], wanted);
      HoldsIsDecides(rows[j], p, ip);
    }
  }

  /** Disjoint networks keep their own records: `Len` is the number of matching networks. */
  lemma {:induction false} LenCountsMatching(rows: seq<Row>, wanted: set<string>)
    requires DisjointNetworks(rows)
    ensures Selected(rows, wanted).Ok?
    ensures |Recorded(Selected(rows, wanted).value)| == CountMatching(rows, wanted)
  {
    if rows == [] {
      assert Recorded([]) == {};
    } else {
      var n := |rows| - 1;
      var front := rows[..n];
      DisjointFront(rows, n);
      LenCountsMatching(front, wanted);
      if Matches(rows[n], wanted) {
        var p := NetOf(rows[n]);
        var ps := Selected(front, wanted).value;
        RecordedConcat(ps, [p]);
        RecordedOne(p);
        UnmapBytes(p.addr);
        OtherPrefixIsKept(p);
        HoldsItself(p);
        HoldsIsDecides(rows[n], p, Masked(p).addr);
        if Masked(p) in Recorded(ps) {
          assert Covers(Masked(p), Masked(p).addr);
          assert Blocks(Recorded(ps), Masked(p).addr);
          UnheldIsNotBlocked(front, wanted, Masked(p).addr);
        }
      }
    }
  }

  lemma DisjointFront(rows: seq<Row>, n: nat)
    requires DisjointNetworks(rows) && n <= |rows|
    ensures DisjointNetworks(rows[..n])
  {}

  lemma HoldsItself(p: Prefix)
    requires p.IsValid() && !Is4In6(p.addr)
    ensures DecidesDirectly(p, Masked(p).addr) && Covers(Masked(p), Masked(p).addr)
  {
    OtherPrefixIsKept(p);
    assert IsCanonical(Masked(p));
    RecordedCovers(p, Masked(p).addr);
  }
}
