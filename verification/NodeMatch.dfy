// Finding and comparing nodes by name, alias and id, as in dsched_globals.c.
module NodeMatch {
  import opened Sums

  datatype Node = Node(name: string, aliases: Option<seq<string>>, nodeid: nat)

  // This host: its name, and its aliases if there are any.
  datatype Host = Host(hostname: string, aliases: Option<seq<string>>)

  // The node id that stands for none.
  const UINT32_MAX: nat := 0xFFFF_FFFF

  function Aliases(n: Node): seq<string> {
    if n.aliases.Some? then n.aliases.value else []
  }

  // Everything that a node is called.
  ghost predicate Called(n: Node, name: string) {
    name == n.name || name in Aliases(n)
  }

  function HostAliases(host: Host): (aliases: seq<string>)
    ensures host.aliases == (if aliases == [] && host.aliases.None? then None else Some(aliases))
  {
    if host.aliases.Some? then host.aliases.value else []
  }

  predicate Local(host: Host, name: string) {
    || name == host.hostname
    || name == "localhost"
    || name == "127.0.0.1"
    || (host.aliases.Some? && name in host.aliases.value)
  }

  // dsched_check_host_is_local
  method CheckHostIsLocal(host: Host, name: string) returns (local: bool)
    ensures local <==> Local(host, name)
    ensures local <==> name == host.hostname || name in ["localhost", "127.0.0.1"] || name in HostAliases(host)
  {
    if name == host.hostname || name == "localhost" || name == "127.0.0.1" {
      return true;
    }
    if host.aliases.Some? {
      var aliases := host.aliases.value;
      for i := 0 to |aliases|
        invariant name !in aliases[..i]
      {
        if name == aliases[i] {
          return true;
        }
      }
      assert aliases[..|aliases|] == aliases;
    }
    return false;
  }

  // ---- lookup ----------------------------------------------------------------------------------

  // A name finds a node that has it as an alias. It also finds the node of that name, where all
  // names of this host stand for its hostname.
  predicate FoundByName(host: Host, n: Node, name: string) {
    || n.name == (if Local(host, name) then host.hostname else name)
    || name in Aliases(n)
  }

  predicate Found(host: Host, n: Node, name: Option<string>, nodeid: nat) {
    || (nodeid != UINT32_MAX && n.nodeid == nodeid)
    || (name.Some? && FoundByName(host, n, name.value))
  }

  // The index is that of the first element for which p holds, and there is none without one.
  ghost predicate IsFirst<T(!new)>(s: seq<T>, p: T -> bool, r: Option<nat>) {
    match r
    case None => forall j :: 0 <= j < |s| ==> !p(s[j])
    case Some(i) => i < |s| && p(s[i]) && forall j :: 0 <= j < i ==> !p(s[j])
  }

  // The loop over the aliases of one node.
  method HasAlias(n: Node, name: string) returns (has: bool)
    ensures has <==> name in Aliases(n)
  {
    if n.aliases.None? {
      return false;
    }
    var aliases := n.aliases.value;
    for m := 0 to |aliases|
      invariant name !in aliases[..m]
    {
      if name == aliases[m] {
        return true;
      }
    }
    assert aliases[..|aliases|] == aliases;
    return false;
  }

  // dsched_node_match on a list of nodes.
  method MatchInList(host: Host, nodes: seq<Node>, name: Option<string>, nodeid: nat) returns (r: Option<nat>)
    ensures IsFirst(nodes, (n: Node) => (nodeid != 0xFFFF_FFFF && n.nodeid == nodeid)
                                        || (name.Some? && FoundByName(host, n, name.value)), r)
  {
    var nm := None;
    if name.Some? {
      var local := CheckHostIsLocal(host, name.value);
      nm := Some(if local then host.hostname else name.value);
    }
    for i := 0 to |nodes|
      invariant forall j :: 0 <= j < i ==> !Found(host, nodes[j], name, nodeid)
    {
      var nptr := nodes[i];
      if nodeid != UINT32_MAX && nptr.nodeid == nodeid {
        return Some(i);
      }
      if nm.Some? {
        if nptr.name == nm.value {
          return Some(i);
        }
        var has := HasAlias(nptr, name.value);
        if has {
          return Some(i);
        }
      }
    }
    return None;
  }

  // dsched_node_match on the node pool, an array with empty slots. Here the id is a position.
  method MatchInPool(host: Host, pool: seq<Option<Node>>, name: Option<string>, nodeid: nat) returns (r: Option<nat>)
    ensures nodeid != 0xFFFF_FFFF && nodeid < |pool| && pool[nodeid].Some? ==> r == Some(nodeid)
    ensures !(nodeid != 0xFFFF_FFFF && nodeid < |pool| && pool[nodeid].Some?) ==>
      IsFirst(pool, (slot: Option<Node>) => slot.Some? && name.Some? && FoundByName(host, slot.value, name.value), r)
  {
    var nm := None;
    if name.Some? {
      var local := CheckHostIsLocal(host, name.value);
      nm := Some(if local then host.hostname else name.value);
    }
    if nodeid != UINT32_MAX {
      if nodeid < |pool| && pool[nodeid].Some? {
        return Some(nodeid);
      }
    }
    if nm.Some? {
      for n := 0 to |pool|
        invariant forall j :: 0 <= j < n ==> !(pool[j].Some? && FoundByName(host, pool[j].value, name.value))
      {
        if pool[n].None? {
          continue;
        }
        var nptr := pool[n].value;
        if nptr.name == nm.value {
          return Some(n);
        }
        var has := HasAlias(nptr, name.value);
        if has {
          return Some(n);
        }
      }
    }
    return None;
  }

  // ---- comparison ------------------------------------------------------------------------------

  ghost predicate ShareAName(a: Node, b: Node) {
    exists name :: Called(a, name) && Called(b, name)
  }

  // With an alias on the first node, two nodes match when some name is common to both. Without one
  // only their own names are compared.
  ghost predicate Matches(a: Node, b: Node) {
    if Aliases(a) != [] then ShareAName(a, b) else a.name == b.name
  }

  // dsched_nptr_match
  method NptrMatch(n1: Node, n2: Node) returns (same: bool)
    ensures same <==> Matches(n1, n2)
  {
    if n1.name == n2.name {
      assert Called(n1, n1.name) && Called(n2, n1.name);
      return true;
    }
    if n1.aliases.Some? {
      var aliases := n1.aliases.value;
      for i := 0 to |aliases|
        invariant i > 0 ==> n1.name !in Aliases(n2)
        invariant forall j :: 0 <= j < i ==> !Called(n2, aliases[j])
      {
        assert Called(n1, aliases[i]);
        if aliases[i] == n2.name {
          assert Called(n2, aliases[i]);
          return true;
        }
        if n2.aliases.Some? {
          var others := n2.aliases.value;
          for m := 0 to |others|
            invariant n1.name !in others[..m] && aliases[i] !in others[..m]
          {
            assert Called(n2, others[m]);
            if others[m] == n1.name {
              assert Called(n1, others[m]);
              return true;
            }
            if aliases[i] == others[m] {
              return true;
            }
          }
          assert others[..|others|] == others;
        }
      }
    }
    return false;
  }

  // One node has no alias, and its name is an alias of the other.
  predicate OneSided(a: Node, b: Node) {
    Aliases(a) == [] && a.name != b.name && a.name in Aliases(b)
  }

  // The comparison is symmetric except for exactly the pairs in which only one node has aliases and
  // the name of the other is among them.
  lemma SymmetricUnlessOneSided(a: Node, b: Node)
    ensures Matches(a, b) == Matches(b, a) <==> !OneSided(a, b) && !OneSided(b, a)
  {
    assert ShareAName(a, b) == ShareAName(b, a);
    assert a.name == b.name ==> Called(a, a.name) && Called(b, a.name);
    if OneSided(a, b) {
      assert Called(a, a.name) && Called(b, a.name);
    }
    if OneSided(b, a) {
      assert Called(a, b.name) && Called(b, b.name);
    }
  }

  lemma AsymmetricPair()
    ensures var a, b := Node("n1", None, 0), Node("n1.cluster", Some(["n1"]), 1);
            !Matches(a, b) && Matches(b, a)
  {
    var a, b := Node("n1", None, 0), Node("n1.cluster", Some(["n1"]), 1);
    assert Called(a, "n1") && Called(b, "n1");
  }

  // A lookup of the name of a node without aliases finds exactly the nodes that match it, as the first
  // node, unless the name is one of this host's. Then it finds the nodes of the hostname, and those
  // that have the name as an alias.
  lemma LookupIsMatch(host: Host, n: Node, a: Node)
    requires Aliases(a) == []
    ensures var local := a.name == host.hostname || a.name in ["localhost", "127.0.0.1"]
                         || a.name in HostAliases(host);
            FoundByName(host, n, a.name) <==>
              if local then n.name == host.hostname || a.name in Aliases(n) else Matches(n, a)
  {
    assert Called(a, a.name);
    assert Called(n, a.name) <==> n.name == a.name || a.name in Aliases(n);
  }
}
