/** The request handlers: one read of the published trie per request, then one decision. */
module Server {
  import opened Wrappers
  import opened Netip
  import opened Octets
  import opened Canonical
  import opened Publication
  import opened Readiness
  import ClientIp

  /** The published prefixes, as the handlers see them; none when no trie was published. */
  type Snapshot = Option<set<Prefix>>

  predicate Serviceable(s: Snapshot) {
    s.Some? && s.value != {}
  }

  /** The status of a /check, from one snapshot and the client's address alone. */
  ghost function Decide(failOpen: bool, blockStatus: int, s: Snapshot, client: Option<Addr>): int {
    if !Serviceable(s) then (if failOpen then 200 else blockStatus)
    else if client == None then blockStatus
    else if Blocks(s.value, client.value) then blockStatus
    else 200
  }

  /**
   What the decision keeps apart.  The startup mode matters only without a usable blocklist,
   and then the client does not; with one a client without an address is never let through;
   an address is let through, with status 200, exactly when no record's network holds it;
   and a larger blocklist blocks no fewer.
   */
  lemma DecisionFacts(failOpen: bool, blockStatus: int, s: Snapshot, client: Option<Addr>)
    requires s.Some? ==> forall c | c in s.value :: IsCanonical(c)
    ensures var status := Decide(failOpen, blockStatus, s, client);
      && (s == None || s == Some({}) ==> status == if failOpen then 200 else blockStatus)
      && (s.Some? && s.value != {} && client == None ==> status == blockStatus)
      && (s.Some? && s.value != {} && client.Some? ==>
            status == if exists c :: c in s.value && NetworkHolds(AddrBytes(c.addr), c.bits, client.value) then blockStatus else 200)
    ensures forall more: set<Prefix> | s.Some? && s.value != {} && s.value <= more ::
              Decide(failOpen, blockStatus, s, client) == blockStatus ==>
              Decide(failOpen, blockStatus, Some(more), client) == blockStatus
  {
    if s.Some? && client.Some? {
      BlocksByBytes(s.value, client.value);
      forall more: set<Prefix> | s.value != {} && s.value <= more && Blocks(s.value, client.value)
        ensures Blocks(more, client.value) && more != {}
      {
        var c :| c in s.value && Covers(c, client.value);
        assert c in more;
      }
    }
    forall more: set<Prefix> | s.Some? && s.value != {} && s.value <= more ensures more != {} {
      var c :| c in s.value;
      assert c in more;
    }
  }

  datatype Serving = Enforcing | DenyAll | AllowAll

  /** The fields of the /healthz body. */
  datatype Health = Health(status: int, serving: Serving, everReady: bool, prefixes: Option<nat>)

  class Server {
    const source: Source
    const readiness: ReadinessTracker
    const blockStatus: int
    const parse: ClientIp.Parser

    constructor (source: Source, readiness: ReadinessTracker, blockStatus: int, parse: ClientIp.Parser)
      ensures this.source == source && this.readiness == readiness
      ensures this.blockStatus == blockStatus && this.parse == parse
    {
      this.source, this.readiness := source, readiness;
      this.blockStatus, this.parse := blockStatus, parse;
    }

    ghost predicate Valid()
      reads source, readiness, source.current, if source.current == null then {} else source.current.nodes.Values
    {
      readiness.Valid() && (source.current != null ==> source.current.Valid())
    }

    ghost function Published(): Snapshot
      reads source, source.current
    {
      if source.current == null then None else Some(source.current.entries)
    }

    /** The lookup the tracker sees of a snapshot. */
    ghost function LookupOf(s: Snapshot): Lookup {
      if s == None then None else Some(|s.value|)
    }

    /** `handleCheck` for a GET. */
    method HandleCheck(h: ClientIp.Headers, now: int) returns (status: int)
      requires Valid()
      modifies readiness
      ensures Valid() && source.current == old(source.current)
      ensures status == Decide(readiness.failOpen, blockStatus, old(Published()), ClientIp.ClientOf(parse, h))
      ensures var t := Observed(readiness.failOpen, old(readiness.Fields()), LookupOf(old(Published())), now);
        readiness.Fields() == if !Serviceable(old(Published())) && readiness.failOpen then Counted(t) else t
    {
      var trie := source.Current();
      var lookup := None;
      if trie != null {
        var n := trie.Len();
        lookup := Some(n);
      }
      var u := readiness.Observe(lookup, now);
      if !u {
        if readiness.failOpen {
          readiness.CountFailOpenAllow();
          return 200;
        }
        return blockStatus;
      }
      var addr := ClientIp.ExtractClientIP(parse, h);
      if addr == None {
        return blockStatus;
      }
      var blocked := trie.Contains(addr.value);
      return if blocked then blockStatus else 200;
    }

    /** `handleHealthz` for a GET; readiness does not depend on the startup mode. */
    method HandleHealthz(now: int) returns (r: Health)
      requires Valid()
      modifies readiness
      ensures Valid() && source.current == old(source.current)
      ensures r.status == if Serviceable(old(Published())) then 200 else 503
      ensures r.prefixes == if Serviceable(old(Published())) then Some(|old(Published()).value|) else None
      ensures r.serving == if Serviceable(old(Published())) then Enforcing else if readiness.failOpen then AllowAll else DenyAll
      ensures r.everReady == readiness.everReady
      ensures readiness.Fields() == Observed(readiness.failOpen, old(readiness.Fields()), LookupOf(old(Published())), now)
    {
      var trie := source.Current();
      var lookup := None;
      if trie != null {
        var n := trie.Len();
        lookup := Some(n);
      }
      var u := readiness.Observe(lookup, now);
      if !u {
        return Health(503, if readiness.failOpen then AllowAll else DenyAll, readiness.everReady, None);
      }
      var prefixes := trie.Len();
      return Health(200, Enforcing, true, Some(prefixes));
    }
  }
}
