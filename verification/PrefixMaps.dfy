/** The prefix map behind every routing table, and the router's scan over it. */
module PrefixMaps {
  import opened Basics

  /** One order in which iterating over the hash map `m` may visit its keys. */
  ghost predicate IterationOrder<K(!new), V>(m: map<K, V>, order: seq<K>) {
    && NoDuplicates(order)
    && forall k :: k in order <==> k in m
  }

  ghost predicate IsLongestMatch<T>(m: map<Text, T>, address: Text, k: Text) {
    && k in m && StartsWith(address, k)
    && forall other :: other in m && StartsWith(address, other) ==> |other| <= |k|
  }

  lemma {:induction false} LongestMatchUnique<T>(m: map<Text, T>, address: Text, k: Text, other: Text)
    requires IsLongestMatch(m, address, k) && IsLongestMatch(m, address, other)
    ensures k == other
  {
    assert k == address[..|k|] && other == address[..|other|];
  }

  /** The value at the longest key that is a prefix of `address`: the meaning of every lookup. */
  function Resolve<T>(m: map<Text, T>, address: Text): (r: Option<T>)
    ensures r.None? <==> forall k :: k in m ==> !StartsWith(address, k)
    ensures r.Some? ==> exists k :: IsLongestMatch(m, address, k) && r.value == m[k]
    decreases |address|
  {
    if address in m then
      assert IsLongestMatch(m, address, address);
      Some(m[address])
    else if address == [] then None
    else
      var shorter := address[..|address| - 1];
      assert forall k :: k in m ==> (StartsWith(address, k) <==> StartsWith(shorter, k)) by {
        forall k | k in m && StartsWith(address, k) ensures StartsWith(shorter, k) {
          assert |k| == |address| ==> k == address;
          assert k == address[..|k|] == shorter[..|k|];
        }
      }
      assert forall k {:trigger IsLongestMatch(m, address, k)} ::
          IsLongestMatch(m, shorter, k) ==> IsLongestMatch(m, address, k);
      Resolve(m, shorter)
  }

  lemma {:induction false} ResolveIs<T>(m: map<Text, T>, address: Text, k: Text)
    requires IsLongestMatch(m, address, k)
    ensures Resolve(m, address) == Some(m[k])
  {
    var found :| IsLongestMatch(m, address, found) && Resolve(m, address).value == m[found];
    LongestMatchUnique(m, address, k, found);
  }

  /** `PrefixMap::resolve`: filter the entries in map order, then take the last one of maximal length. */
  function LastLongest(order: seq<Text>, address: Text): (best: Option<Text>) {
    if order == [] then None
    else
      var best := LastLongest(order[..|order| - 1], address);
      var k := order[|order| - 1];
      if StartsWith(address, k) && (best.None? || |best.value| <= |k|) then Some(k) else best
  }

  lemma {:induction false} LastLongestIsMaximal(order: seq<Text>, address: Text)
    ensures var best := LastLongest(order, address);
            match best
            case None => forall k :: k in order ==> !StartsWith(address, k)
            case Some(b) => b in order && StartsWith(address, b)
                            && forall k :: k in order && StartsWith(address, k) ==> |k| <= |b|
  {
    if order != [] {
      LastLongestIsMaximal(order[..|order| - 1], address);
    }
  }

  function ResolveIn<T>(m: map<Text, T>, order: seq<Text>, address: Text): (r: Option<T>) {
    var best := LastLongest(order, address);
    if best.Some? && best.value in m then Some(m[best.value]) else None
  }

  /** The order in which the map is visited never matters. */
  lemma {:induction false} ResolveAnyOrder<T>(m: map<Text, T>, order: seq<Text>, address: Text)
    requires IterationOrder(m, order)
    ensures ResolveIn(m, order, address) == Resolve(m, address)
  {
    LastLongestIsMaximal(order, address);
    var best := LastLongest(order, address);
    if best.Some? {
      ResolveIs(m, address, best.value);
    }
  }

  /** Next-hop selection of `Router::handle_request`: exact match first, then a scan in map order. */
  method NextHop<T>(table: map<Text, T>, order: seq<Text>, dest: Text) returns (nextHop: Option<T>)
    requires IterationOrder(table, order)
    ensures nextHop == Resolve(table, dest)
  {
    nextHop := None;
    if dest in table {
      nextHop := Some(table[dest]);
    } else if |table| != 0 {
      var matching: Text := [];
      for i := 0 to |order|
        invariant nextHop.None? ==> matching == [] && forall k :: k in order[..i] ==> !StartsWith(dest, k)
        invariant nextHop.Some? ==>
            && matching in order[..i] && StartsWith(dest, matching) && nextHop.value == table[matching]
            && forall k :: k in order[..i] && StartsWith(dest, k) ==> |k| <= |matching|
      {
        var prefix := order[i];
        if (|prefix| == 0 || StartsWith(dest, prefix)) && |prefix| >= |matching| {
          nextHop := Some(table[prefix]);
          matching := prefix;
        }
      }
      assert order[..|order|] == order;
      if nextHop.Some? {
        ResolveIs(table, dest, matching);
      }
    }
  }
}
