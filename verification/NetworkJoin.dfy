/** GetNetwork: the interface counters joined with the interface list. */
module NetworkJoin {
  import opened Basics
  import opened Text

  datatype IOCountersStat = IOCountersStat(name: string, bytesSent: uint64, bytesRecv: uint64)

  datatype InterfaceStat = InterfaceStat(name: string, flags: seq<string>)

  datatype NetworkEntry = NetworkEntry(name: string, bytesSent: uint64, bytesRecv: uint64, isUp: bool)

  predicate IsVirtualInterface(name: string) {
    || name == "lo"
    || HasPrefix(name, "docker")
    || HasPrefix(name, "veth")
    || HasPrefix(name, "br-")
    || HasPrefix(name, "virbr")
    || HasPrefix(name, "vlan")
  }

  /** The counters of the physical interfaces, in order. */
  function Physical(counters: seq<IOCountersStat>): (kept: seq<IOCountersStat>)
    ensures forall c :: c in kept <==> c in counters && !IsVirtualInterface(c.name)
  {
    if counters == [] then []
    else
      var last := counters[|counters| - 1];
      Physical(counters[..|counters| - 1]) + if IsVirtualInterface(last.name) then [] else [last]
  }

  /** Entry i is the last one of that name, and it carries the flag. */
  predicate UpInLastEntry(ifaces: seq<InterfaceStat>, name: string) {
    exists i | 0 <= i < |ifaces| ::
      && ifaces[i].name == name
      && "up" in ifaces[i].flags
      && forall j | i < j < |ifaces| :: ifaces[j].name != name
  }

  /** The nested-loop meaning of the join. */
  function Joined(counters: seq<IOCountersStat>, ifaces: seq<InterfaceStat>): seq<NetworkEntry> {
    EntriesOf(Physical(counters), ifaces)
  }

  function EntriesOf(kept: seq<IOCountersStat>, ifaces: seq<InterfaceStat>): seq<NetworkEntry> {
    seq(|kept|, k requires 0 <= k < |kept| =>
      NetworkEntry(kept[k].name, kept[k].bytesSent, kept[k].bytesRecv, UpInLastEntry(ifaces, kept[k].name)))
  }

  /** m maps every name to its last entry in ifaces. */
  ghost predicate IndexesLast(m: map<string, InterfaceStat>, ifaces: seq<InterfaceStat>) {
    && (forall i | 0 <= i < |ifaces| :: ifaces[i].name in m)
    && (forall name | name in m :: exists i | 0 <= i < |ifaces| ::
         && ifaces[i] == m[name]
         && ifaces[i].name == name
         && forall j | i < j < |ifaces| :: ifaces[j].name != name)
  }

  lemma IndexesLastAppend(m: map<string, InterfaceStat>, ifaces: seq<InterfaceStat>, iface: InterfaceStat)
    requires IndexesLast(m, ifaces)
    ensures IndexesLast(m[iface.name := iface], ifaces + [iface])
  {
    var m', ifaces' := m[iface.name := iface], ifaces + [iface];
    forall name | name in m'
      ensures exists i | 0 <= i < |ifaces'| ::
        && ifaces'[i] == m'[name]
        && ifaces'[i].name == name
        && forall j | i < j < |ifaces'| :: ifaces'[j].name != name
    {
      if name == iface.name {
        assert ifaces'[|ifaces|] == m'[name];
      } else {
        var i :| 0 <= i < |ifaces| && ifaces[i] == m[name] && ifaces[i].name == name
                 && forall j | i < j < |ifaces| :: ifaces[j].name != name;
        assert ifaces'[i] == m'[name];
      }
    }
  }

  lemma LookupIsLastEntry(m: map<string, InterfaceStat>, ifaces: seq<InterfaceStat>, name: string)
    requires IndexesLast(m, ifaces)
    ensures UpInLastEntry(ifaces, name) <==> name in m && "up" in m[name].flags
  {
    if name in m {
      var i :| 0 <= i < |ifaces| && ifaces[i] == m[name] && ifaces[i].name == name
               && forall j | i < j < |ifaces| :: ifaces[j].name != name;
      if UpInLastEntry(ifaces, name) {
        var k :| 0 <= k < |ifaces| && ifaces[k].name == name && "up" in ifaces[k].flags
                 && forall j | k < j < |ifaces| :: ifaces[j].name != name;
        assert k == i;
      }
    }
  }

  method HasUpFlag(flags: seq<string>) returns (up: bool)
    ensures up == ("up" in flags)
  {
    for k := 0 to |flags|
      invariant "up" !in flags[..k]
    {
      if flags[k] == "up" {
        return true;
      }
    }
    return false;
  }

  /** The join through a name-indexed map; a failing counter or interface listing is the
      call's failure, the counters being asked first. */
  method GetNetwork(counters: Result<seq<IOCountersStat>, string>, ifaces: Result<seq<InterfaceStat>, string>)
    returns (r: Result<seq<NetworkEntry>, string>)
    ensures counters.Err? ==> r == Err(counters.error)
    ensures counters.Ok? && ifaces.Err? ==> r == Err(ifaces.error)
    ensures counters.Ok? && ifaces.Ok? ==> r == Ok(Joined(counters.value, ifaces.value))
  {
    if counters.Err? {
      return Err(counters.error);
    }
    if ifaces.Err? {
      return Err(ifaces.error);
    }
    var stats, list := counters.value, ifaces.value;
    var ifaceMap: map<string, InterfaceStat> := map[];
    for i := 0 to |list|
      invariant IndexesLast(ifaceMap, list[..i])
    {
      IndexesLastAppend(ifaceMap, list[..i], list[i]);
      assert list[..i] + [list[i]] == list[..i + 1];
      ifaceMap := ifaceMap[list[i].name := list[i]];
    }
    assert list[..|list|] == list;

    var entries: seq<NetworkEntry> := [];
    for i := 0 to |stats|
      invariant entries == Joined(stats[..i], list)
    {
      var c := stats[i];
      assert stats[..i + 1][..i] == stats[..i];
      if IsVirtualInterface(c.name) {
        continue;
      }
      var entry := NetworkEntry(c.name, c.bytesSent, c.bytesRecv, false);
      if c.name in ifaceMap {
        var up := HasUpFlag(ifaceMap[c.name].flags);
        entry := entry.(isUp := up);
      }
      LookupIsLastEntry(ifaceMap, list, c.name);
      entries := entries + [entry];
    }
    assert stats[..|stats|] == stats;
    return Ok(entries);
  }

  /** Names the listing does not know are reported as down, and a name listed several
      times is reported by its last entry alone. */
  lemma LastEntryDecides(ifaces: seq<InterfaceStat>, last: InterfaceStat, name: string)
    ensures UpInLastEntry(ifaces + [last], name)
       <==> if last.name == name then "up" in last.flags else UpInLastEntry(ifaces, name)
    ensures (forall i | 0 <= i < |ifaces| :: ifaces[i].name != name) ==> !UpInLastEntry(ifaces, name)
  {
    var all := ifaces + [last];
    assert all[|ifaces|] == last;
    if last.name == name {
      if UpInLastEntry(all, name) {
        var i :| 0 <= i < |all| && all[i].name == name && "up" in all[i].flags
                 && forall j | i < j < |all| :: all[j].name != name;
        assert i == |ifaces|;
      }
    } else {
      if UpInLastEntry(ifaces, name) {
        var i :| 0 <= i < |ifaces| && ifaces[i].name == name && "up" in ifaces[i].flags
                 && forall j | i < j < |ifaces| :: ifaces[j].name != name;
        assert all[i] == ifaces[i];
      }
      if UpInLastEntry(all, name) {
        var i :| 0 <= i < |all| && all[i].name == name && "up" in all[i].flags
                 && forall j | i < j < |all| :: all[j].name != name;
        assert ifaces[i] == all[i];
        assert forall j | i < j < |ifaces| :: all[j] == ifaces[j];
      }
    }
  }

  /** The virtual interfaces: the loopback, and the names that begin in one of five ways. */
  lemma VirtualIff(name: string)
    ensures IsVirtualInterface(name) <==>
      || name == "lo"
      || exists prefix, rest :: prefix in ["docker", "veth", "br-", "virbr", "vlan"] && name == prefix + rest
  {
    var prefixes := ["docker", "veth", "br-", "virbr", "vlan"];
    assert prefixes[0] == "docker" && prefixes[1] == "veth" && prefixes[2] == "br-" && prefixes[3] == "virbr";
    assert prefixes[4] == "vlan";
    forall prefix | prefix in prefixes
      ensures HasPrefix(name, prefix) <==> exists rest :: name == prefix + rest
    {
      HasPrefixIff(name, prefix);
    }
  }

  /** The entry of one counter: its own name and bytes, and the flag of its last interface. */
  lemma JoinedOfOne(c: IOCountersStat, ifaces: seq<InterfaceStat>)
    ensures var entries := Joined([c], ifaces);
      if IsVirtualInterface(c.name) then entries == []
      else
        && |entries| == 1
        && entries[0].name == c.name
        && entries[0].bytesSent == c.bytesSent
        && entries[0].bytesRecv == c.bytesRecv
        && (entries[0].isUp <==> exists i | 0 <= i < |ifaces| ::
              && ifaces[i].name == c.name && "up" in ifaces[i].flags
              && forall j | i < j < |ifaces| :: ifaces[j].name != c.name)
  {
    assert [c][..0] == [];
    assert Physical([c]) == if IsVirtualInterface(c.name) then [] else [c];
  }

  /** Joining two counter lists one after the other is joining their concatenation:
      entries come out in the order of the counters. */
  lemma JoinedAppend(a: seq<IOCountersStat>, b: seq<IOCountersStat>, ifaces: seq<InterfaceStat>)
    ensures Joined(a + b, ifaces) == Joined(a, ifaces) + Joined(b, ifaces)
  {
    PhysicalAppend(a, b);
    EntriesOfAppend(Physical(a), Physical(b), ifaces);
  }

  lemma EntriesOfAppend(a: seq<IOCountersStat>, b: seq<IOCountersStat>, ifaces: seq<InterfaceStat>)
    ensures EntriesOf(a + b, ifaces) == EntriesOf(a, ifaces) + EntriesOf(b, ifaces)
  {
  }

  lemma {:induction false} PhysicalAppend(a: seq<IOCountersStat>, b: seq<IOCountersStat>)
    ensures Physical(a + b) == Physical(a) + Physical(b)
  {
    if b == [] {
      assert a + b == a;
    } else {
      assert (a + b)[..|a + b| - 1] == a + b[..|b| - 1];
      PhysicalAppend(a, b[..|b| - 1]);
    }
  }
}
