/** The Kea lease hook: lease events maintain one fact file per address, and the DNS zone file is
    regenerated from the facts. */
module LeaseHook {
  import opened Wrappers
  import opened Sequences
  import opened Sorting
  import opened Text

  /** The four settings that Nix writes for the script; lists of lines are sets of lines. */
  datatype Config = Config(
    allowedSubnets: set<string>, reservedMacs: set<string>, reservedFqdns: set<string>, publishPool: bool)

  datatype Lease = Lease(addr: string, hwaddr: string, subnet: string, hostname: string)

  datatype Event =
    | Committed(leases: seq<Lease>, deleted: seq<string>)
    | Expire(addr: string, removeLease: string)
    | Release(addr: string)
    | OtherHook

  /** The fact files: address to published name. The file holds the record line of the two. */
  type Facts = map<string, string>

  // ---- one lease ----

  /** The name without the dot that Kea puts at the end of a qualified name. */
  predicate IsNameIn(hostname: string, name: string) {
    hostname == name + "." || (hostname == name && (name == "" || name[|name| - 1] != '.'))
  }

  function StripTrailingDot(s: string): (name: string)
    ensures IsNameIn(s, name)
  {
    if s != "" && s[|s| - 1] == '.' then s[..|s| - 1] else s
  }

  const HEX_LETTERS: map<char, char> := map['A' := 'a', 'B' := 'b', 'C' := 'c', 'D' := 'd', 'E' := 'e', 'F' := 'f']

  /** The same hardware address, in small letters. */
  predicate IsSmall(hwaddr: string, mac: string) {
    && |mac| == |hwaddr|
    && forall i :: 0 <= i < |mac| ==> mac[i] == if hwaddr[i] in HEX_LETTERS then HEX_LETTERS[hwaddr[i]] else hwaddr[i]
  }

  function LowerHex(s: string): (r: string)
    ensures IsSmall(s, r)
  {
    seq(|s|, i requires 0 <= i < |s| => if 'A' <= s[i] <= 'F' then s[i] - 'A' + 'a' else s[i])
  }

  predicate IsReserved(cfg: Config, lease: Lease) {
    LowerHex(lease.hwaddr) in cfg.reservedMacs
  }

  /** The name that a lease publishes, if any. */
  function Verdict(cfg: Config, lease: Lease): Option<string> {
    var name := StripTrailingDot(lease.hostname);
    if lease.subnet !in cfg.allowedSubnets || name == "" then None
    else if IsReserved(cfg, lease) then Some(name)
    else if cfg.publishPool && name !in cfg.reservedFqdns then Some(name)
    else None
  }

  // ---- one event ----

  function Publish(cfg: Config, facts: Facts, lease: Lease): Facts {
    match Verdict(cfg, lease)
    case Some(name) => facts[lease.addr := name]
    case None => facts - {lease.addr}
  }

  function PublishAll(cfg: Config, facts: Facts, leases: seq<Lease>): Facts
    decreases |leases|
  {
    if leases == [] then facts else PublishAll(cfg, Publish(cfg, facts, leases[0]), leases[1..])
  }

  function RemoveAll(facts: Facts, addrs: seq<string>): Facts
    decreases |addrs|
  {
    if addrs == [] then facts else RemoveAll(facts - {addrs[0]}, addrs[1..])
  }

  predicate Removes(e: Event) {
    e.Release? || (e.Expire? && (e.removeLease == "true" || e.removeLease == "1"))
  }

  function ApplyEvent(cfg: Config, facts: Facts, e: Event): Facts {
    match e
    case Committed(leases, deleted) => RemoveAll(PublishAll(cfg, facts, leases), deleted)
    case Expire(addr, _) => if Removes(e) then facts - {addr} else facts
    case Release(addr) => facts - {addr}
    case OtherHook => facts
  }

  /** The events after which the script regenerates the zone file. */
  predicate Regenerates(e: Event) {
    if e.Committed? then e.leases != [] || e.deleted != [] else Removes(e)
  }

  // ---- the simple specification: the last mention of an address decides ----

  function LastLease(leases: seq<Lease>, addr: string): Option<Lease> {
    if leases == [] then None
    else
      var last := leases[|leases| - 1];
      if last.addr == addr then Some(last) else LastLease(leases[..|leases| - 1], addr)
  }

  datatype Mention = Silent | Gone | Leased(lease: Lease)

  /** What one event says about one address. */
  function MentionOf(e: Event, addr: string): Mention {
    match e
    case Committed(leases, deleted) =>
      if addr in deleted then Gone
      else (match LastLease(leases, addr) case None => Silent case Some(l) => Leased(l))
    case Expire(a, _) => if Removes(e) && a == addr then Gone else Silent
    case Release(a) => if a == addr then Gone else Silent
    case OtherHook => Silent
  }

  function LastMention(events: seq<Event>, addr: string): Mention {
    if events == [] then Silent
    else
      var m := MentionOf(events[|events| - 1], addr);
      if m.Silent? then LastMention(events[..|events| - 1], addr) else m
  }

  lemma {:induction false} PublishAllLast(cfg: Config, facts: Facts, leases: seq<Lease>, addr: string)
    ensures Lookup(PublishAll(cfg, facts, leases), addr) ==
            match LastLease(leases, addr) case None => Lookup(facts, addr) case Some(l) => Verdict(cfg, l)
    decreases |leases|
  {
    if leases != [] {
      var next := Publish(cfg, facts, leases[0]);
      PublishAllLast(cfg, next, leases[1..], addr);
      LastLeaseFront(leases, addr);
    }
  }

  lemma {:induction false} LastLeaseFront(leases: seq<Lease>, addr: string)
    requires leases != []
    ensures LastLease(leases, addr) ==
            match LastLease(leases[1..], addr)
            case None => if leases[0].addr == addr then Some(leases[0]) else None
            case Some(l) => Some(l)
    decreases |leases|
  {
    var n := |leases|;
    if n == 1 {
      assert leases[1..] == [] && leases[..0] == [];
    } else {
      LastLeaseFront(leases[..n - 1], addr);
      assert leases[..n - 1][1..] == leases[1..][..n - 2];
      assert leases[1..][n - 2] == leases[n - 1];
    }
  }

  lemma {:induction false} RemoveAllLookup(facts: Facts, addrs: seq<string>, addr: string)
    ensures Lookup(RemoveAll(facts, addrs), addr) == if addr in addrs then None else Lookup(facts, addr)
    decreases |addrs|
  {
    if addrs != [] {
      RemoveAllLookup(facts - {addrs[0]}, addrs[1..], addr);
      assert addrs == [addrs[0]] + addrs[1..];
    }
  }

  lemma EventDecides(cfg: Config, facts: Facts, e: Event, addr: string)
    ensures Lookup(ApplyEvent(cfg, facts, e), addr) ==
            match MentionOf(e, addr)
            case Silent => Lookup(facts, addr)
            case Gone => None
            case Leased(l) => Verdict(cfg, l)
  {
    if e.Committed? {
      PublishAllLast(cfg, facts, e.leases, addr);
      RemoveAllLookup(PublishAll(cfg, facts, e.leases), e.deleted, addr);
    }
  }

  function FactsAfter(cfg: Config, events: seq<Event>): Facts {
    if events == [] then map[]
    else ApplyEvent(cfg, FactsAfter(cfg, events[..|events| - 1]), events[|events| - 1])
  }

  /** Over every sequence of events, an address has a fact exactly when the last event that mentions it
      is a lease with a name to publish, and the fact is that name. */
  lemma {:induction false} FactsAreLastVerdicts(cfg: Config, events: seq<Event>, addr: string)
    ensures Lookup(FactsAfter(cfg, events), addr) ==
            match LastMention(events, addr) case Leased(l) => Verdict(cfg, l) case _ => None
  {
    if events != [] {
      var front := events[..|events| - 1];
      FactsAreLastVerdicts(cfg, front, addr);
      EventDecides(cfg, FactsAfter(cfg, front), events[|events| - 1], addr);
    }
  }

  lemma {:induction false} LastLeaseMember(leases: seq<Lease>, addr: string)
    ensures LastLease(leases, addr).Some? ==>
              LastLease(leases, addr).value in leases && LastLease(leases, addr).value.addr == addr
  {
    if leases != [] {
      LastLeaseMember(leases[..|leases| - 1], addr);
    }
  }

  ghost predicate Announced(events: seq<Event>, lease: Lease) {
    exists i :: 0 <= i < |events| && events[i].Committed? && lease in events[i].leases
  }

  lemma {:induction false} MentionedLeaseIsAnnounced(events: seq<Event>, addr: string)
    ensures LastMention(events, addr).Leased? ==>
              Announced(events, LastMention(events, addr).lease) && LastMention(events, addr).lease.addr == addr
  {
    if events != [] {
      var n := |events|;
      MentionedLeaseIsAnnounced(events[..n - 1], addr);
      if events[n - 1].Committed? { LastLeaseMember(events[n - 1].leases, addr); }
      if MentionOf(events[n - 1], addr).Silent? && LastMention(events, addr).Leased? {
        var l := LastMention(events, addr).lease;
        var i :| 0 <= i < n - 1 && events[..n - 1][i].Committed? && l in events[..n - 1][i].leases;
        assert events[i] == events[..n - 1][i];
      }
    }
  }

  /** The MAC address of the lease is in the reserved list, in small letters. */
  ghost predicate HasReservedMac(cfg: Config, lease: Lease) {
    exists mac :: mac in cfg.reservedMacs && IsSmall(lease.hwaddr, mac)
  }

  /** The lease is to be published under this name. */
  ghost predicate PublishesAs(cfg: Config, lease: Lease, name: string) {
    && IsNameIn(lease.hostname, name) && name != "" && lease.subnet in cfg.allowedSubnets
    && (HasReservedMac(cfg, lease) || (cfg.publishPool && name !in cfg.reservedFqdns))
  }

  lemma NameIsUnique(hostname: string, a: string, b: string)
    ensures IsNameIn(hostname, a) && IsNameIn(hostname, b) ==> a == b
  {
    assert (a + ".")[..|a|] == a && (b + ".")[..|b|] == b;
  }

  lemma VerdictMeans(cfg: Config, lease: Lease)
    ensures forall name :: Verdict(cfg, lease) == Some(name) <==> PublishesAs(cfg, lease, name)
  {
    var mac := LowerHex(lease.hwaddr);
    forall other | IsSmall(lease.hwaddr, other) ensures other == mac {}
    assert IsReserved(cfg, lease) <==> HasReservedMac(cfg, lease);
    forall name ensures IsNameIn(lease.hostname, name) ==> name == StripTrailingDot(lease.hostname) {
      NameIsUnique(lease.hostname, name, StripTrailingDot(lease.hostname));
    }
  }

  /** Every fact comes from an announced lease of its address in an allowed subnet. It is the host name without the
      dot at its end, and not empty; a name from the reserved list is only held through a reserved MAC address. */
  lemma FactsAreLegitimate(cfg: Config, events: seq<Event>, addr: string) returns (lease: Lease)
    requires addr in FactsAfter(cfg, events)
    ensures Announced(events, lease) && lease.addr == addr && LastMention(events, addr) == Leased(lease)
    ensures var name := FactsAfter(cfg, events)[addr];
            && name != "" && (lease.hostname == name + "." || (lease.hostname == name && name[|name| - 1] != '.'))
            && lease.subnet in cfg.allowedSubnets
            && (HasReservedMac(cfg, lease) || (cfg.publishPool && name !in cfg.reservedFqdns))
  {
    FactsAreLastVerdicts(cfg, events, addr);
    MentionedLeaseIsAnnounced(events, addr);
    lease := LastMention(events, addr).lease;
    VerdictMeans(cfg, lease);
    assert PublishesAs(cfg, lease, FactsAfter(cfg, events)[addr]);
  }

  /** Both ways: an address has a fact if and only if its last mention is a lease in an allowed subnet with a
      name, which is either reserved by its MAC address or a free name while pool leases are published. */
  lemma HasFactIff(cfg: Config, events: seq<Event>, addr: string)
    ensures addr in FactsAfter(cfg, events) <==>
              LastMention(events, addr).Leased? && exists name :: PublishesAs(cfg, LastMention(events, addr).lease, name)
    ensures forall name :: Lookup(FactsAfter(cfg, events), addr) == Some(name) <==>
              LastMention(events, addr).Leased? && PublishesAs(cfg, LastMention(events, addr).lease, name)
  {
    FactsAreLastVerdicts(cfg, events, addr);
    if LastMention(events, addr).Leased? { VerdictMeans(cfg, LastMention(events, addr).lease); }
  }

  /** A reserved name, announced with or without the dot at its end, is never published for another MAC address. */
  lemma ReservedNameIsKept(cfg: Config, events: seq<Event>, addr: string, name: string)
    requires LastMention(events, addr).Leased? && !HasReservedMac(cfg, LastMention(events, addr).lease)
    requires name in cfg.reservedFqdns && IsNameIn(LastMention(events, addr).lease.hostname, name)
    ensures addr !in FactsAfter(cfg, events)
  {
    HasFactIff(cfg, events, addr);
    var lease := LastMention(events, addr).lease;
    forall held ensures !PublishesAs(cfg, lease, held) { NameIsUnique(lease.hostname, name, held); }
  }

  /** What one event does at one address. */
  lemma EventMeans(cfg: Config, facts: Facts, e: Event, addr: string)
    ensures match e
            case Release(a) => Lookup(ApplyEvent(cfg, facts, e), addr) == if addr == a then None else Lookup(facts, addr)
            case Expire(a, removeLease) =>
              Lookup(ApplyEvent(cfg, facts, e), addr) ==
              if addr == a && removeLease in {"true", "1"} then None else Lookup(facts, addr)
            case OtherHook => ApplyEvent(cfg, facts, e) == facts
            case Committed(leases, deleted) =>
              && (addr in deleted ==> addr !in ApplyEvent(cfg, facts, e))
              && (addr !in deleted && (forall i :: 0 <= i < |leases| ==> leases[i].addr != addr) ==>
                    Lookup(ApplyEvent(cfg, facts, e), addr) == Lookup(facts, addr))
              && (forall i :: 0 <= i < |leases| && addr !in deleted && IsLastOf(leases, i, addr) ==>
                    forall name :: Lookup(ApplyEvent(cfg, facts, e), addr) == Some(name) <==> PublishesAs(cfg, leases[i], name))
  {
    EventDecides(cfg, facts, e, addr);
    if e.Committed? {
      LastLeaseIs(e.leases, addr);
      forall i | 0 <= i < |e.leases|
        ensures forall name :: Verdict(cfg, e.leases[i]) == Some(name) <==> PublishesAs(cfg, e.leases[i], name)
      {
        VerdictMeans(cfg, e.leases[i]);
      }
    }
  }

  /** Lease i is of this address, and no later one is. */
  predicate IsLastOf(leases: seq<Lease>, i: nat, addr: string) {
    i < |leases| && leases[i].addr == addr && forall j :: i < j < |leases| ==> leases[j].addr != addr
  }

  lemma {:induction false} LastLeaseIs(leases: seq<Lease>, addr: string)
    ensures (forall i :: 0 <= i < |leases| ==> leases[i].addr != addr) ==> LastLease(leases, addr) == None
    ensures forall i :: 0 <= i < |leases| && IsLastOf(leases, i, addr) ==> LastLease(leases, addr) == Some(leases[i])
  {
    if leases != [] {
      var n := |leases| - 1;
      LastLeaseIs(leases[..n], addr);
      forall i | 0 <= i < n && IsLastOf(leases, i, addr) ensures LastLease(leases, addr) == Some(leases[i]) {
        assert IsLastOf(leases[..n], i, addr);
      }
    }
  }

  // ---- the zone file ----

  function Record(name: string, addr: string): string {
    name + " A " + addr
  }

  /** `$(...)` drops the newlines at the end of a command's output. */
  function DropNewlines(s: string): string {
    if s != "" && s[|s| - 1] == '\n' then DropNewlines(s[..|s| - 1]) else s
  }

  /** How the file is printed: the checksum of the records, and the lines above them for a given checksum. */
  datatype Format = Format(cksum: string -> string, header: string -> seq<string>)

  /** The header of the script: time to live, SOA record with the serial number, NS record. */
  function ScriptHeader(serial: string): seq<string> {
    ["$TTL 60", "@ SOA localhost. admin.localhost. (" + serial + " 3600 900 604800 60)", "@ NS  localhost."]
  }

  /** The header is three lines, and the checksum fits in one of them. */
  ghost predicate GoodFormat(fmt: Format) {
    && (forall s :: OneLine(fmt.cksum(s)))
    && forall serial :: OneLine(serial) ==>
         var h := fmt.header(serial); |h| == 3 && OneLine(h[0]) && OneLine(h[1]) && OneLine(h[2])
  }

  lemma ScriptFormatIsGood(cksum: string -> string)
    requires forall s :: OneLine(cksum(s))
    ensures GoodFormat(Format(cksum, ScriptHeader))
  {
  }

  /** The file as printed, from the lines in the order `find` happened to give them. */
  function ZoneText(fmt: Format, found: seq<string>): string {
    var records := DropNewlines(Unlines(Sort(StringLeq, found)));
    Unlines(fmt.header(fmt.cksum(records)) + [records])
  }

  /** The content of a fact file. */
  function FactLine(facts: Facts): string -> string {
    (a: string) => Record(if a in facts then facts[a] else "", a)
  }

  function LinesOf(facts: Facts, addrs: seq<string>): seq<string> {
    MapSeq(FactLine(facts), addrs)
  }

  /** A listing of the fact directory: every file once, in any order. */
  ghost predicate Lists(facts: Facts, addrs: seq<string>) {
    multiset(addrs) == multiset(facts.Keys)
  }

  lemma ListsMembers(facts: Facts, addrs: seq<string>)
    requires Lists(facts, addrs)
    ensures forall a :: a in addrs <==> a in facts
    ensures |addrs| == |facts|
  {
    forall a ensures a in addrs <==> a in facts {
      assert a in addrs <==> a in multiset(addrs);
      assert a in multiset(facts.Keys) <==> a in facts.Keys;
    }
    assert |addrs| == |multiset(addrs)| == |multiset(facts.Keys)| == |facts.Keys| == |facts|;
  }

  ghost function AnyListing(keys: set<string>): (addrs: seq<string>)
    ensures multiset(addrs) == multiset(keys)
  {
    if keys == {} then []
    else
      var a :| a in keys;
      assert multiset(keys) == multiset(keys - {a}) + multiset{a};
      [a] + AnyListing(keys - {a})
  }

  /** The zone file that belongs to a fact store. */
  ghost function Render(fmt: Format, facts: Facts): string {
    ZoneText(fmt, LinesOf(facts, AnyListing(facts.Keys)))
  }

  /** The zone file does not depend on the order in which the facts are found. */
  lemma RenderIsCanonical(fmt: Format, facts: Facts, addrs: seq<string>)
    requires Lists(facts, addrs)
    ensures ZoneText(fmt, LinesOf(facts, addrs)) == Render(fmt, facts)
  {
    var other := AnyListing(facts.Keys);
    MapPermutation(FactLine(facts), addrs, other);
    StringOrder();
    SortIsCanonical(StringLeq, LinesOf(facts, addrs), LinesOf(facts, other));
  }

  // ---- reading the zone file back ----

  /** The records after the three header lines: owner name, type, address (section 5.1 of RFC 1035). */
  function ReadRecords(lines: seq<string>): Facts {
    if lines == [] then map[]
    else
      var fields := Split(lines[0], ' ');
      if |fields| == 3 && fields[1] == "A" then ReadRecords(lines[1..])[fields[2] := fields[0]]
      else ReadRecords(lines[1..])
  }

  function ReadZone(text: string): Facts {
    var lines := Lines(text);
    if |lines| < 3 then map[] else ReadRecords(lines[3..])
  }

  /** A word that can stand in a record line, and in a file name. */
  predicate CleanWord(s: string) {
    s != "" && ' ' !in s && '\n' !in s && '/' !in s && s != "." && s != ".."
  }

  ghost predicate CleanFacts(facts: Facts) {
    forall a :: a in facts ==> CleanWord(a) && facts[a] != "" && ' ' !in facts[a] && '\n' !in facts[a]
  }

  lemma RecordParses(name: string, addr: string)
    requires ' ' !in name && ' ' !in addr
    ensures Split(Record(name, addr), ' ') == [name, "A", addr]
  {
    assert Record(name, addr) == name + [' '] + ("A" + [' '] + addr);
    SplitFirst(name, ' ', "A" + [' '] + addr);
    SplitFirst("A", ' ', addr);
    SplitLast(addr, ' ');
  }

  ghost predicate IsRecord(facts: Facts, line: string) {
    exists a :: a in facts && line == Record(facts[a], a)
  }

  /** Lines that are records of the facts read back as a part of the facts, whatever their order. */
  lemma {:induction false} ReadsSome(facts: Facts, lines: seq<string>)
    requires CleanFacts(facts)
    requires forall i :: 0 <= i < |lines| ==> IsRecord(facts, lines[i])
    ensures forall a :: a in ReadRecords(lines) ==> a in facts && ReadRecords(lines)[a] == facts[a]
  {
    if lines != [] {
      assert IsRecord(facts, lines[0]);
      var a :| a in facts && lines[0] == Record(facts[a], a);
      RecordParses(facts[a], a);
      ReadsSome(facts, lines[1..]);
    }
  }

  lemma {:induction false} ReadsAll(lines: seq<string>, name: string, addr: string)
    requires ' ' !in name && ' ' !in addr && Record(name, addr) in lines
    ensures addr in ReadRecords(lines)
  {
    RecordParses(name, addr);
    if lines[0] != Record(name, addr) {
      assert lines == [lines[0]] + lines[1..];
      ReadsAll(lines[1..], name, addr);
    }
  }

  lemma {:induction false} DropOneNewline(lines: seq<string>)
    requires forall i :: 0 <= i < |lines| ==> lines[i] != "" && OneLine(lines[i])
    ensures DropNewlines(Unlines(lines)) + "\n" == if lines == [] then "\n" else Unlines(lines)
  {
    if lines != [] {
      var n := |lines|;
      var last, front := lines[n - 1], Unlines(lines[..n - 1]);
      assert lines == lines[..n - 1] + [last];
      UnlinesConcat(lines[..n - 1], [last]);
      UnlinesOne(last);
      EndsOutsideNewline(front, last);
    }
  }

  lemma EndsOutsideNewline(front: string, last: string)
    requires last != "" && OneLine(last)
    ensures DropNewlines(front + (last + "\n")) == front + last
    ensures front + last + "\n" == front + (last + "\n")
  {
    var t := front + last;
    var s := front + (last + "\n");
    assert s == t + "\n" && s[..|s| - 1] == t;
    assert t[|t| - 1] == last[|last| - 1];
    assert last[|last| - 1] in last;
    assert DropNewlines(t) == t;
  }

  function Body(lines: seq<string>): seq<string> {
    if lines == [] then [""] else lines
  }

  lemma TextBelowHeader(header: seq<string>, lines: seq<string>)
    requires forall i :: 0 <= i < |lines| ==> lines[i] != "" && OneLine(lines[i])
    ensures Unlines(header + [DropNewlines(Unlines(lines))]) == Unlines(header + Body(lines))
  {
    var records := DropNewlines(Unlines(lines));
    DropOneNewline(lines);
    UnlinesOne(records);
    UnlinesOne("");
    UnlinesConcat(header, [records]);
    UnlinesConcat(header, Body(lines));
  }

  lemma ReadBody(lines: seq<string>)
    ensures ReadRecords(Body(lines)) == ReadRecords(lines)
  {
    if lines == [] {
      SplitLast("", ' ');
      assert [""][1..] == [];
    }
  }

  lemma ReadBelow(header: seq<string>, body: seq<string>)
    requires |header| == 3 && OneLine(header[0]) && OneLine(header[1]) && OneLine(header[2])
    requires forall i :: 0 <= i < |body| ==> OneLine(body[i])
    ensures ReadZone(Unlines(header + body)) == ReadRecords(body)
  {
    var all := header + body;
    forall i | 0 <= i < |all| ensures OneLine(all[i]) {
      assert all[i] == if i < 3 then header[i] else body[i - 3];
    }
    LinesUnlines(all);
    assert all[3..] == body;
  }

  /** Below its header the text holds the record lines; without records, one empty line. */
  lemma ReadBelowHeader(header: seq<string>, lines: seq<string>)
    requires |header| == 3 && OneLine(header[0]) && OneLine(header[1]) && OneLine(header[2])
    requires forall i :: 0 <= i < |lines| ==> lines[i] != "" && OneLine(lines[i])
    ensures ReadZone(Unlines(header + [DropNewlines(Unlines(lines))])) == ReadRecords(lines)
  {
    TextBelowHeader(header, lines);
    ReadBody(lines);
    ReadBelow(header, Body(lines));
  }

  lemma SortedLinesAreRecords(facts: Facts, addrs: seq<string>, lines: seq<string>)
    requires CleanFacts(facts) && Lists(facts, addrs) && lines == Sort(StringLeq, LinesOf(facts, addrs))
    ensures forall i :: 0 <= i < |lines| ==> IsRecord(facts, lines[i])
    ensures forall i :: 0 <= i < |lines| ==> lines[i] != "" && OneLine(lines[i])
    ensures forall a :: a in facts ==> Record(facts[a], a) in lines
  {
    var found := LinesOf(facts, addrs);
    StringOrder();
    SortSorts(StringLeq, found);
    FoundLinesAreRecords(facts, addrs);
    forall i | 0 <= i < |lines| ensures IsRecord(facts, lines[i]) && lines[i] != "" && OneLine(lines[i]) {
      assert lines[i] in multiset(found);
      var k :| 0 <= k < |found| && found[k] == lines[i];
    }
    forall a | a in facts ensures Record(facts[a], a) in lines {
      assert Record(facts[a], a) in multiset(found);
    }
  }

  lemma FoundLinesAreRecords(facts: Facts, addrs: seq<string>)
    requires CleanFacts(facts) && Lists(facts, addrs)
    ensures var found := LinesOf(facts, addrs);
            && (forall i :: 0 <= i < |found| ==> IsRecord(facts, found[i]) && found[i] != "" && OneLine(found[i]))
            && (forall a :: a in facts ==> Record(facts[a], a) in found)
  {
    var found := LinesOf(facts, addrs);
    MapMembers(FactLine(facts), addrs);
    ListsMembers(facts, addrs);
    forall i | 0 <= i < |found| ensures IsRecord(facts, found[i]) && found[i] != "" && OneLine(found[i]) {
      assert addrs[i] in addrs && CleanWord(addrs[i]);
    }
    forall a | a in facts ensures Record(facts[a], a) in found {
      assert a in addrs;
      var k :| 0 <= k < |addrs| && addrs[k] == a;
      assert found[k] == Record(facts[a], a);
    }
  }

  lemma ReadsExactly(facts: Facts, lines: seq<string>)
    requires CleanFacts(facts)
    requires forall i :: 0 <= i < |lines| ==> IsRecord(facts, lines[i])
    requires forall a :: a in facts ==> Record(facts[a], a) in lines
    ensures ReadRecords(lines) == facts
  {
    ReadsSome(facts, lines);
    ReadsEvery(facts, lines);
    assert ReadRecords(lines).Keys == facts.Keys;
  }

  lemma ReadsEvery(facts: Facts, lines: seq<string>)
    requires CleanFacts(facts)
    requires forall a :: a in facts ==> Record(facts[a], a) in lines
    ensures forall a :: a in facts ==> a in ReadRecords(lines)
  {
    forall a | a in facts ensures a in ReadRecords(lines) {
      assert CleanWord(a);
      ReadsAll(lines, facts[a], a);
    }
  }

  lemma TextReadsBack(fmt: Format, facts: Facts, addrs: seq<string>)
    requires CleanFacts(facts) && GoodFormat(fmt) && Lists(facts, addrs)
    ensures ReadZone(ZoneText(fmt, LinesOf(facts, addrs))) == facts
  {
    var lines := Sort(StringLeq, LinesOf(facts, addrs));
    SortedLinesAreRecords(facts, addrs, lines);
    ReadsExactly(facts, lines);
    var serial := fmt.cksum(DropNewlines(Unlines(lines)));
    assert OneLine(serial);
    ReadBelowHeader(fmt.header(serial), lines);
  }

  lemma BodyDropped(lines: seq<string>)
    ensures DropNewlines(Unlines(Body(lines))) == DropNewlines(Unlines(lines))
  {
    if lines == [] {
      UnlinesOne("");
      assert "" + "\n" == "\n" && "\n"[..0] == "";
      assert DropNewlines("\n") == DropNewlines("");
    }
  }

  lemma LinesOfZone(header: seq<string>, lines: seq<string>)
    requires |header| == 3 && OneLine(header[0]) && OneLine(header[1]) && OneLine(header[2])
    requires forall i :: 0 <= i < |lines| ==> lines[i] != "" && OneLine(lines[i])
    ensures Lines(Unlines(header + [DropNewlines(Unlines(lines))])) == header + Body(lines)
  {
    TextBelowHeader(header, lines);
    var all := header + Body(lines);
    forall i | 0 <= i < |all| ensures OneLine(all[i]) {
      assert all[i] == if i < 3 then header[i] else Body(lines)[i - 3];
    }
    LinesUnlines(all);
  }

  /** The header of the zone file is that of the checksum of the records below it, so that the serial number stays as
      long as the records do. */
  lemma SerialIsChecksum(fmt: Format, facts: Facts)
    requires CleanFacts(facts) && GoodFormat(fmt)
    ensures var lines := Lines(Render(fmt, facts));
            |lines| >= 3 && lines[..3] == fmt.header(fmt.cksum(DropNewlines(Unlines(lines[3..]))))
  {
    var addrs := AnyListing(facts.Keys);
    var lines := Sort(StringLeq, LinesOf(facts, addrs));
    SortedLinesAreRecords(facts, addrs, lines);
    var records := DropNewlines(Unlines(lines));
    var header := fmt.header(fmt.cksum(records));
    assert OneLine(fmt.cksum(records));
    LinesOfZone(header, lines);
    BodyDropped(lines);
    assert (header + Body(lines))[..3] == header && (header + Body(lines))[3..] == Body(lines);
  }

  /** The serial number in an SOA record: the first word after the bracket. */
  function SoaSerial(line: string): string {
    var rest := line[IndexOf(line, '(')..];
    if rest == "" then "" else rest[1..][..IndexOf(rest[1..], ' ')]
  }

  lemma SerialBetween(front: string, serial: string, rest: string)
    requires '(' !in front && ' ' !in serial && rest != "" && rest[0] == ' '
    ensures SoaSerial(front + "(" + serial + rest) == serial
  {
    var line, tail := front + "(" + serial + rest, serial + rest;
    assert line[..|front|] == front && line[|front|..] == "(" + tail;
    IndexOfUnique(line, '(', |front|);
    assert ("(" + tail)[1..] == tail && tail[..|serial|] == serial;
    IndexOfUnique(tail, ' ', |serial|);
  }

  lemma HeaderHoldsSerial(serial: string)
    requires ' ' !in serial
    ensures SoaSerial(ScriptHeader(serial)[1]) == serial
  {
    var front, rest := "@ SOA localhost. admin.localhost. ", " 3600 900 604800 60)";
    assert front + "(" == "@ SOA localhost. admin.localhost. (";
    SerialBetween(front, serial, rest);
  }

  /** The serial number of the zone file is the checksum of the records below it: other records give another number,
      as far as the checksum tells them apart. */
  lemma ZoneSerial(cksum: string -> string, facts: Facts)
    requires CleanFacts(facts) && forall s :: OneLine(cksum(s)) && ' ' !in cksum(s)
    ensures var lines := Lines(Render(Format(cksum, ScriptHeader), facts));
            |lines| >= 3 && SoaSerial(lines[1]) == cksum(DropNewlines(Unlines(lines[3..])))
  {
    var fmt := Format(cksum, ScriptHeader);
    SerialIsChecksum(fmt, facts);
    var lines := Lines(Render(fmt, facts));
    var serial := cksum(DropNewlines(Unlines(lines[3..])));
    assert lines[..3][1] == lines[1];
    HeaderHoldsSerial(serial);
  }

  /** The record lines of the zone file parse back to exactly the facts. */
  lemma ZoneReadsBack(fmt: Format, facts: Facts)
    requires CleanFacts(facts) && GoodFormat(fmt)
    ensures ReadZone(Render(fmt, facts)) == facts
  {
    TextReadsBack(fmt, facts, AnyListing(facts.Keys));
  }

  // ---- whole runs ----

  predicate CleanEvent(e: Event) {
    match e
    case Committed(leases, deleted) =>
      (forall l :: l in leases ==> CleanWord(l.addr) && ' ' !in l.hostname && '\n' !in l.hostname) &&
      (forall a :: a in deleted ==> CleanWord(a))
    case Expire(addr, _) => CleanWord(addr)
    case Release(addr) => CleanWord(addr)
    case OtherHook => true
  }

  ghost function ZoneAfter(cfg: Config, fmt: Format, events: seq<Event>): Option<string> {
    if events == [] then None
    else if Regenerates(events[|events| - 1]) then Some(Render(fmt, FactsAfter(cfg, events)))
    else ZoneAfter(cfg, fmt, events[..|events| - 1])
  }

  lemma QuietEvent(cfg: Config, facts: Facts, e: Event)
    requires !Regenerates(e)
    ensures ApplyEvent(cfg, facts, e) == facts
  {
  }

  /** In every reachable state the zone file is the rendering of the current facts, or no event has
      regenerated it yet and there are no facts. */
  lemma {:induction false} ZoneInSync(cfg: Config, fmt: Format, events: seq<Event>)
    ensures match ZoneAfter(cfg, fmt, events)
            case Some(text) => text == Render(fmt, FactsAfter(cfg, events))
            case None => FactsAfter(cfg, events) == map[]
  {
    if events != [] && !Regenerates(events[|events| - 1]) {
      var front := events[..|events| - 1];
      ZoneInSync(cfg, fmt, front);
      QuietEvent(cfg, FactsAfter(cfg, front), events[|events| - 1]);
      assert FactsAfter(cfg, events) == FactsAfter(cfg, front);
    }
  }

  lemma {:induction false} NoZoneWithoutRegeneration(cfg: Config, fmt: Format, events: seq<Event>)
    ensures ZoneAfter(cfg, fmt, events).None? <==> forall i :: 0 <= i < |events| ==> !Regenerates(events[i])
  {
    if events != [] {
      NoZoneWithoutRegeneration(cfg, fmt, events[..|events| - 1]);
    }
  }

  /** Clean events only ever make clean facts, so a resolver that reads the zone sees exactly the facts. */
  lemma ResolverSeesFacts(cfg: Config, fmt: Format, events: seq<Event>)
    requires forall e :: e in events ==> CleanEvent(e)
    requires GoodFormat(fmt)
    requires ZoneAfter(cfg, fmt, events).Some?
    ensures ReadZone(ZoneAfter(cfg, fmt, events).value) == FactsAfter(cfg, events)
  {
    ZoneInSync(cfg, fmt, events);
    var facts := FactsAfter(cfg, events);
    forall a | a in facts ensures CleanWord(a) && facts[a] != "" && ' ' !in facts[a] && '\n' !in facts[a] {
      var lease := FactsAreLegitimate(cfg, events, a);
      var i :| 0 <= i < |events| && events[i].Committed? && lease in events[i].leases;
      assert CleanEvent(events[i]);
    }
    ZoneReadsBack(fmt, facts);
  }

  // ---- the script ----

  class HookScript {
    const cfg: Config
    const fmt: Format
    var facts: Facts
    var zone: Option<string>
    var replaced: nat   // how often the zone file was renamed into place

    constructor (cfg: Config, fmt: Format)
      ensures this.cfg == cfg && this.fmt == fmt
      ensures facts == map[] && zone == None && replaced == 0
    {
      this.cfg, this.fmt := cfg, fmt;
      facts, zone, replaced := map[], None, 0;
    }

    method PublishFact(lease: Lease)
      modifies this`facts
      ensures facts == Publish(cfg, old(facts), lease)
      ensures forall addr :: addr != lease.addr ==> Lookup(facts, addr) == Lookup(old(facts), addr)
      ensures forall name :: Lookup(facts, lease.addr) == Some(name) <==> PublishesAs(cfg, lease, name)
    {
      VerdictMeans(cfg, lease);
      var hostname := StripTrailingDot(lease.hostname);
      facts := facts - {lease.addr};
      if lease.subnet !in cfg.allowedSubnets { return; }
      if LowerHex(lease.hwaddr) in cfg.reservedMacs {
        // a reservation always publishes, whatever the pool setting
      } else if cfg.publishPool {
        if hostname == "" || hostname in cfg.reservedFqdns { return; }
      } else {
        return;
      }
      if hostname == "" { return; }
      facts := facts[lease.addr := hostname];
      assert facts == old(facts)[lease.addr := hostname];
    }

    method RemoveFact(addr: string)
      modifies this`facts
      ensures facts == old(facts) - {addr}
    {
      facts := facts - {addr};
    }

    /** `find`: every fact file once, in whatever order the directory gives. */
    method FindFacts() returns (addrs: seq<string>)
      ensures Lists(facts, addrs)
    {
      var rest := facts.Keys;
      addrs := [];
      while rest != {}
        invariant multiset(addrs) + multiset(rest) == multiset(facts.Keys)
        decreases rest
      {
        var a :| a in rest;
        assert multiset(rest) == multiset(rest - {a}) + multiset{a};
        addrs := addrs + [a];
        rest := rest - {a};
      }
    }

    /** The new text, from the facts in the order in which they are found. */
    method PrintZone() returns (text: string)
      ensures text == Render(fmt, facts)
    {
      var addrs := FindFacts();
      text := ZoneText(fmt, LinesOf(facts, addrs));
      RenderIsCanonical(fmt, facts, addrs);
    }

    /** Replaces the file only if its text changes. */
    method RegenerateZonefile()
      modifies this`zone, this`replaced
      ensures zone == Some(Render(fmt, facts))
      ensures replaced == old(replaced) + if zone == old(zone) then 0 else 1
    {
      var text := PrintZone();
      Replace(text);
    }

    /** The zone file is moved into place only if it differs. */
    method Replace(text: string)
      modifies this`zone, this`replaced
      ensures zone == Some(text)
      ensures replaced == old(replaced) + if zone == old(zone) then 0 else 1
    {
      if zone != Some(text) {
        zone := Some(text);
        replaced := replaced + 1;
      }
    }

    method Handle(e: Event)
      requires CleanEvent(e)
      modifies this
      ensures facts == ApplyEvent(cfg, old(facts), e)
      ensures zone == if Regenerates(e) then Some(Render(fmt, facts)) else old(zone)
      ensures replaced == old(replaced) + if zone == old(zone) then 0 else 1
    {
      match e
      case Committed(leases, deleted) =>
        var changed, i := false, 0;
        while i < |leases|
          invariant i <= |leases| && (changed <==> i > 0)
          invariant PublishAll(cfg, facts, leases[i..]) == PublishAll(cfg, old(facts), leases)
          invariant zone == old(zone) && replaced == old(replaced)
        {
          assert leases[i..][0] == leases[i] && leases[i..][1..] == leases[i + 1..];
          PublishFact(leases[i]);
          changed := true;
          i := i + 1;
        }
        assert leases[|leases|..] == [];
        ghost var published := facts;
        i := 0;
        while i < |deleted|
          invariant i <= |deleted| && (changed <==> i > 0 || leases != [])
          invariant RemoveAll(facts, deleted[i..]) == RemoveAll(published, deleted)
          invariant zone == old(zone) && replaced == old(replaced)
        {
          assert deleted[i..][0] == deleted[i] && deleted[i..][1..] == deleted[i + 1..];
          RemoveFact(deleted[i]);
          changed := true;
          i := i + 1;
        }
        assert deleted[|deleted|..] == [];
        if changed { RegenerateZonefile(); }
      case Expire(addr, removeLease) =>
        if removeLease == "true" || removeLease == "1" {
          RemoveFact(addr);
          RegenerateZonefile();
        }
      case Release(addr) =>
        RemoveFact(addr);
        RegenerateZonefile();
      case OtherHook =>
    }
  }

  /** Running the script on a sequence of events, one after the other, from an empty store. */
  method RunEvents(cfg: Config, fmt: Format, events: seq<Event>) returns (hook: HookScript)
    requires forall e :: e in events ==> CleanEvent(e)
    ensures fresh(hook) && hook.facts == FactsAfter(cfg, events) && hook.zone == ZoneAfter(cfg, fmt, events)
  {
    hook := new HookScript(cfg, fmt);
    for i := 0 to |events|
      invariant fresh(hook) && hook.cfg == cfg && hook.fmt == fmt
      invariant hook.facts == FactsAfter(cfg, events[..i]) && hook.zone == ZoneAfter(cfg, fmt, events[..i])
    {
      assert events[..i + 1][..i] == events[..i] && events[..i + 1][i] == events[i];
      hook.Handle(events[i]);
    }
    assert events[..|events|] == events;
  }
}
