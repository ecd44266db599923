/** A causal transformer on values: what one forward over a whole sequence computes, and what its KV cache holds. */
module CausalNet {
  import opened Counting

  type Row = seq<real>

  /** Keys and values of one layer, one row per position. */
  datatype Layer = Layer(keys: seq<Row>, values: seq<Row>)

  /** The weights, as functions: token and position to a row, a row to its key and value, a row with all keys and
      values up to its own position to the next row, and the last row to logits. */
  datatype Net = Net(embed: (int, nat) -> Row, key: (nat, Row) -> Row, value: (nat, Row) -> Row,
                     mix: (nat, Row, seq<Row>, seq<Row>) -> Row, head: Row -> Row, depth: nat)

  function Embedded(net: Net, ids: seq<int>, start: nat): (h: seq<Row>)
    ensures |h| == |ids|
  {
    seq(|ids|, i requires 0 <= i < |ids| => net.embed(ids[i], start + i))
  }

  function KeysOf(net: Net, l: nat, h: seq<Row>): (k: seq<Row>)
    ensures |k| == |h|
  {
    seq(|h|, i requires 0 <= i < |h| => net.key(l, h[i]))
  }

  function ValuesOf(net: Net, l: nat, h: seq<Row>): (v: seq<Row>)
    ensures |v| == |h|
  {
    seq(|h|, i requires 0 <= i < |h| => net.value(l, h[i]))
  }

  /** Attention with a causal mask: row i of h sits at position start + i and sees the keys and values up to there. */
  function Attend(net: Net, l: nat, h: seq<Row>, keys: seq<Row>, values: seq<Row>, start: nat): (next: seq<Row>)
    requires |keys| == |values| == start + |h|
    ensures |next| == |h|
  {
    seq(|h|, i requires 0 <= i < |h| => net.mix(l, h[i], keys[..start + i + 1], values[..start + i + 1]))
  }

  /** The rows entering layer l in a forward over the whole of ids. */
  function Hidden(net: Net, l: nat, ids: seq<int>): (h: seq<Row>)
    ensures |h| == |ids|
  {
    if l == 0 then Embedded(net, ids, 0)
    else
      var h := Hidden(net, l - 1, ids);
      Attend(net, l - 1, h, KeysOf(net, l - 1, h), ValuesOf(net, l - 1, h), 0)
  }

  function LayerOf(net: Net, l: nat, ids: seq<int>): Layer {
    Layer(KeysOf(net, l, Hidden(net, l, ids)), ValuesOf(net, l, Hidden(net, l, ids)))
  }

  /** The KV cache a forward over the whole of ids leaves behind. */
  function Snapshot(net: Net, ids: seq<int>): (s: seq<Layer>)
    ensures |s| == net.depth
  {
    seq(net.depth, l requires 0 <= l < net.depth => LayerOf(net, l, ids))
  }

  /** The logits after the last token of a forward over the whole of ids. */
  function Logits(net: Net, ids: seq<int>): Row
    requires ids != []
  {
    net.head(Hidden(net, net.depth, ids)[|ids| - 1])
  }

  // --- causality: no position looks ahead ----------------------------------------------------------

  lemma {:induction false} Causal(net: Net, l: nat, ids: seq<int>, n: nat)
    requires n <= |ids|
    ensures Hidden(net, l, ids)[..n] == Hidden(net, l, ids[..n])
  {
    if l > 0 {
      Causal(net, l - 1, ids, n);
      AttendPrefix(net, l - 1, Hidden(net, l - 1, ids), n);
    }
  }

  lemma AttendPrefix(net: Net, l: nat, h: seq<Row>, n: nat)
    requires n <= |h|
    ensures Attend(net, l, h, KeysOf(net, l, h), ValuesOf(net, l, h), 0)[..n] ==
            Attend(net, l, h[..n], KeysOf(net, l, h[..n]), ValuesOf(net, l, h[..n]), 0)
  {
    var whole := Attend(net, l, h, KeysOf(net, l, h), ValuesOf(net, l, h), 0);
    var part := Attend(net, l, h[..n], KeysOf(net, l, h[..n]), ValuesOf(net, l, h[..n]), 0);
    forall i: nat | i < n ensures whole[i] == part[i] {
      assert KeysOf(net, l, h)[..0 + i + 1] == KeysOf(net, l, h[..n])[..0 + i + 1];
      assert ValuesOf(net, l, h)[..0 + i + 1] == ValuesOf(net, l, h[..n])[..0 + i + 1];
    }
  }

  /** Row i of a forward depends only on the first i + 1 tokens. */
  lemma RowIsPrefixLogits(net: Net, ids: seq<int>, i: nat)
    requires i < |ids|
    ensures net.head(Hidden(net, net.depth, ids)[i]) == Logits(net, ids[..i + 1])
  {
    Causal(net, net.depth, ids, i + 1);
    PrefixAt(Hidden(net, net.depth, ids), i + 1, i);
    LastRow(net, ids[..i + 1], Hidden(net, net.depth, ids[..i + 1]), i);
  }

  lemma LastRow(net: Net, ids: seq<int>, h: seq<Row>, i: nat)
    requires |ids| == i + 1 && h == Hidden(net, net.depth, ids)
    ensures net.head(h[i]) == Logits(net, ids)
  {}

  lemma KeysAppend(net: Net, l: nat, h: seq<Row>, n: nat)
    requires n <= |h|
    ensures KeysOf(net, l, h) == KeysOf(net, l, h[..n]) + KeysOf(net, l, h[n..])
    ensures ValuesOf(net, l, h) == ValuesOf(net, l, h[..n]) + ValuesOf(net, l, h[n..])
  {}

  /** Keys computed for the cached part and for the new part are, together, the keys of the whole. */
  lemma LayerAppends(net: Net, l: nat, a: seq<int>, b: seq<int>)
    ensures var h := Hidden(net, l, a + b)[|a|..];
            LayerOf(net, l, a + b) == Layer(LayerOf(net, l, a).keys + KeysOf(net, l, h),
                                            LayerOf(net, l, a).values + ValuesOf(net, l, h))
  {
    Causal(net, l, a + b, |a|);
    assert (a + b)[..|a|] == a;
    KeysAppend(net, l, Hidden(net, l, a + b), |a|);
  }

  /** Attending only from the new rows, over the keys of everything, gives the new rows of the whole. */
  lemma AttendAppends(net: Net, l: nat, a: seq<int>, b: seq<int>)
    ensures var h := Hidden(net, l, a + b);
            Attend(net, l, h[|a|..], KeysOf(net, l, h), ValuesOf(net, l, h), |a|) == Hidden(net, l + 1, a + b)[|a|..]
  {
    var h := Hidden(net, l, a + b);
    var part := Attend(net, l, h[|a|..], KeysOf(net, l, h), ValuesOf(net, l, h), |a|);
    var whole := Hidden(net, l + 1, a + b);
    forall i: nat | i < |b| ensures part[i] == whole[|a|..][i] {
      assert |a| + i + 1 == 0 + (|a| + i) + 1;
      assert whole[|a|..][i] == whole[|a| + i];
    }
  }
}

/** The model object and the cache objects it grows in place. */
module KvCache {
  import opened CausalNet
  import opened Counting

  /** A transformers cache: Update rebinds a layer's rows to a longer sequence, so whoever shares the object sees it. */
  class DynamicCache {
    var layers: seq<Layer>

    constructor ()
      ensures layers == []
    {
      layers := [];
    }

    function SeqLength(): nat
      reads this
    {
      if layers == [] then 0 else |layers[0].keys|
    }

    /** Appends rows to layer l, creating it when it is the next one. */
    method Update(keys: seq<Row>, values: seq<Row>, l: nat) returns (all: Layer)
      requires l <= |layers|
      modifies this
      ensures all == (if l < |old(layers)| then Layer(old(layers)[l].keys + keys, old(layers)[l].values + values)
                      else Layer(keys, values))
      ensures layers == old(layers)[..l] + [all] + (if l < |old(layers)| then old(layers)[l + 1..] else [])
    {
      all := if l < |layers| then Layer(layers[l].keys + keys, layers[l].values + values) else Layer(keys, values);
      layers := layers[..l] + [all] + if l < |layers| then layers[l + 1..] else [];
    }
  }

  /** The layers of a cache that has seen a; a fresh one has seen nothing. */
  function Seen(net: Net, a: seq<int>): seq<Layer> {
    if a == [] then [] else Snapshot(net, a)
  }

  /** The layers of a cache that had seen a, once the first l layers have also seen b. */
  function Halfway(net: Net, l: nat, a: seq<int>, b: seq<int>): seq<Layer>
    requires l <= net.depth
  {
    Snapshot(net, a + b)[..l] + if a == [] then [] else Snapshot(net, a)[l..]
  }

  lemma HalfwayEnds(net: Net, a: seq<int>, b: seq<int>)
    ensures Halfway(net, 0, a, b) == Seen(net, a)
    ensures Halfway(net, net.depth, a, b) == Snapshot(net, a + b)
  {
    HalfwayAtEnds(Snapshot(net, a + b), Snapshot(net, a));
  }

  lemma EmbeddedTail(net: Net, a: seq<int>, b: seq<int>)
    ensures Embedded(net, b, |a|) == Hidden(net, 0, a + b)[|a|..]
  {
    var whole := Embedded(net, a + b, 0);
    forall i: nat | i < |b| ensures Embedded(net, b, |a|)[i] == whole[|a|..][i] {
      SuffixAt(whole, |a|, i);
    }
  }

  lemma RowOfForward(net: Net, all: seq<int>, whole: seq<Row>, row: nat)
    requires row < |all| == |whole| && whole == Hidden(net, net.depth, all)
    ensures net.head(whole[row]) == Logits(net, all[..row + 1])
  {
    RowIsPrefixLogits(net, all, row);
  }

  lemma TakeConcat(a: seq<int>, b: seq<int>, n: nat)
    requires n <= |b|
    ensures (a + b)[..|a| + n] == a + b[..n]
  {}

  /** One layer of a forward: extend the cache, attend from the new rows. */
  method RunLayer(net: Net, l: nat, cache: DynamicCache, h: seq<Row>, start: nat, ghost a: seq<int>, ghost b: seq<int>)
    returns (next: seq<Row>)
    requires l < net.depth && start == |a| && b != [] && Ran(net, l, a, b, h, cache.layers)
    modifies cache
    ensures Ran(net, l + 1, a, b, next, cache.layers)
  {
    var all := cache.Update(KeysOf(net, l, h), ValuesOf(net, l, h), l);
    LayerAppends(net, l, a, b);
    assert all == LayerOf(net, l, a + b);
    assert Snapshot(net, a + b)[..l + 1] == Snapshot(net, a + b)[..l] + [all];
    AttendAppends(net, l, a, b);
    next := Attend(net, l, h, all.keys, all.values, start);
  }

  /** Calls the model on ids, on top of the given cache object, which it grows and hands back. */
  method Forward(net: Net, ids: seq<int>, past: DynamicCache?, ghost a: seq<int>)
    returns (cache: DynamicCache, logits: seq<Row>)
    requires net.depth > 0 && ids != []
    requires past == null ==> a == []
    requires past != null ==> past.layers == Seen(net, a)
    modifies past
    ensures if past == null then fresh(cache) else cache == past
    ensures cache.layers == Snapshot(net, a + ids)
    ensures |logits| == |ids|
    ensures forall i :: 0 <= i < |ids| ==> logits[i] == Logits(net, a + ids[..i + 1])
  {
    if past == null { cache := new DynamicCache(); } else { cache := past; }
    HalfwayEnds(net, a, ids);
    EmbeddedTail(net, a, ids);
    var h := RunLayers(net, ids, cache, a);
    logits := seq(|h|, i requires 0 <= i < |h| => net.head(h[i]));
    forall i | 0 <= i < |ids| ensures logits[i] == Logits(net, a + ids[..i + 1]) {
      SuffixAt(Hidden(net, net.depth, a + ids), |a|, i);
      RowOfForward(net, a + ids, Hidden(net, net.depth, a + ids), |a| + i);
      TakeConcat(a, ids, i + 1);
    }
  }

  method RunLayers(net: Net, ids: seq<int>, cache: DynamicCache, ghost a: seq<int>) returns (h: seq<Row>)
    requires net.depth > 0 && ids != [] && cache.layers == Seen(net, a)
    modifies cache
    ensures h == Hidden(net, net.depth, a + ids)[|a|..]
    ensures cache.layers == Snapshot(net, a + ids)
  {
    SeenLength(net, a, cache.layers);
    var start := cache.SeqLength();
    h := Embedded(net, ids, start);
    HalfwayEnds(net, a, ids);
    EmbeddedTail(net, a, ids);
    var l := 0;
    while l < net.depth
      invariant l <= net.depth && Ran(net, l, a, ids, h, cache.layers)
    {
      h := RunLayer(net, l, cache, h, start, a, ids);
      l := l + 1;
    }
  }

  /** The first l layers have run on b behind a: the rows that enter the next one, and the cache. */
  ghost predicate Ran(net: Net, l: nat, a: seq<int>, b: seq<int>, h: seq<Row>, layers: seq<Layer>)
    requires l <= net.depth
  {
    h == Hidden(net, l, a + b)[|a|..] && layers == Halfway(net, l, a, b)
  }

  lemma SeenLength(net: Net, a: seq<int>, layers: seq<Layer>)
    requires net.depth > 0 && layers == Seen(net, a)
    ensures (if layers == [] then 0 else |layers[0].keys|) == |a|
  {}

  /** The mistake the provider avoids: two siblings forwarded on one live cache object.  The second one is scored in a
      context that also holds the first. */
  method ShareOneCache(net: Net, parent: seq<int>, x: int, y: int) returns (first: Row, second: Row)
    requires net.depth > 0 && parent != []
    ensures first == Logits(net, parent + [x])
    ensures second == Logits(net, parent + [x] + [y])
  {
    var live, _ := Forward(net, parent, null, []);
    assert [] + parent == parent;
    var again, rows := Forward(net, [x], live, parent);
    assert [x][..1] == [x];
    first := rows[0];
    var last, more := Forward(net, [y], again, parent + [x]);
    assert [y][..1] == [y];
    second := more[0];
  }
}

/** The provider: an LRU-bounded table of KV snapshots, one per token prefix. */
module TreeProvider {
  import opened CausalNet
  import opened Counting
  import opened KvCache
  import opened Options

  /** What is stored for a prefix: its KV rows, as immutable values, and the logits after it. */
  datatype Node = Node(stored: seq<Layer>, logits: Row)

  function Without(order: seq<seq<int>>, key: seq<int>): seq<seq<int>> {
    if order == [] then []
    else if order[0] == key then order[1..]
    else [order[0]] + Without(order[1..], key)
  }

  /** The order after key, already present, was used: everything else as before, key last. */
  function MoveToEnd(order: seq<seq<int>>, key: seq<int>): seq<seq<int>> {
    Without(order, key) + [key]
  }

  lemma {:induction false} WithoutIs(order: seq<seq<int>>, key: seq<int>)
    requires Distinct(order)
    ensures Distinct(Without(order, key)) && Elements(Without(order, key)) == Elements(order) - {key}
    ensures |Without(order, key)| == if key in order then |order| - 1 else |order|
  {
    if order != [] {
      var rest := order[1..];
      assert Elements(order) == Elements(rest) + {order[0]};
      assert order[0] !in Elements(rest);
      if order[0] != key {
        WithoutIs(rest, key);
        assert Elements(Without(order, key)) == Elements(Without(rest, key)) + {order[0]};
      }
    }
  }

  lemma MoveToEndIs(order: seq<seq<int>>, key: seq<int>)
    requires Distinct(order) && key in order
    ensures Distinct(MoveToEnd(order, key)) && Elements(MoveToEnd(order, key)) == Elements(order)
    ensures |MoveToEnd(order, key)| == |order|
  {
    WithoutIs(order, key);
    assert key !in Elements(Without(order, key));
    assert Elements(MoveToEnd(order, key)) == Elements(Without(order, key)) + {key};
  }

  /** The length of the deepest cached proper prefix among those shorter than n. */
  function Deepest(cached: set<seq<int>>, key: seq<int>, n: nat): (k: Option<nat>)
    requires n <= |key|
    ensures k.Some? ==> k.value < n && key[..k.value] in cached && forall j :: k.value < j < n ==> key[..j] !in cached
    ensures k.None? ==> forall j :: 0 <= j < n ==> key[..j] !in cached
  {
    if n == 0 then None else if key[..n - 1] in cached then Some(n - 1) else Deepest(cached, key, n - 1)
  }

  /** The newest max entries. */
  function Newest(order: seq<seq<int>>, max: nat): seq<seq<int>> {
    if |order| <= max then order else order[|order| - max..]
  }

  /** The order a call for key leaves behind. */
  function Touched(order: seq<seq<int>>, key: seq<int>, max: nat): seq<seq<int>> {
    if key in order then MoveToEnd(order, key)
    else match Deepest(Elements(order), key, |key|)
         case Some(k) => Newest(MoveToEnd(order, key[..k]) + [key], max)
         case None => Newest(order + [key], max)
  }

  class TreeLogitProvider {
    const net: Net
    const bos: Option<int>
    const maxCachedNodes: int
    const logSoftmax: Row -> Row
    var nodes: map<seq<int>, Node>
    var order: seq<seq<int>>

    constructor (net: Net, bos: Option<int>, maxCachedNodes: int, logSoftmax: Row -> Row)
      requires net.depth > 0
      ensures Valid() && nodes == map[] && order == []
      ensures this.net == net && this.bos == bos && this.maxCachedNodes == maxCachedNodes
      ensures this.logSoftmax == logSoftmax
    {
      this.net, this.bos, this.maxCachedNodes, this.logSoftmax := net, bos, maxCachedNodes, logSoftmax;
      nodes, order := map[], [];
    }

    function Root(): int {
      if bos.Some? then bos.value else 0
    }

    /** Every prefix is scored in the context that begins with the root token. */
    function Context(key: seq<int>): (ids: seq<int>)
      ensures ids != []
    {
      [Root()] + key
    }

    function Exact(key: seq<int>): Node {
      Node(Snapshot(net, Context(key)), Logits(net, Context(key)))
    }

    /** Every stored node is the snapshot for its own prefix; order lists the stored prefixes, oldest use first. */
    ghost predicate Consistent()
      reads this
    {
      && net.depth > 0 && Distinct(order) && nodes.Keys == Elements(order)
      && forall key :: key in nodes ==> nodes[key] == Exact(key)
    }

    ghost predicate Valid()
      reads this
    {
      Consistent() && (|order| == 0 || |order| <= maxCachedNodes)
    }

    /** A cache object of its own over stored rows. */
    method FreshPast(stored: seq<Layer>) returns (cache: DynamicCache)
      ensures fresh(cache) && cache.layers == stored
    {
      cache := new DynamicCache();
      var l := 0;
      while l < |stored|
        invariant l <= |stored| && fresh(cache) && cache.layers == stored[..l]
      {
        var _ := cache.Update(stored[l].keys, stored[l].values, l);
        l := l + 1;
      }
    }

    /** Forwards the tokens between a cached prefix and key, stores key's node and evicts down to the limit.
        None is the KeyError of evicting from an empty table, which a negative limit leads to. */
    method ForwardFrom(ancestor: Option<nat>, key: seq<int>) returns (node: Option<Node>)
      requires Valid() && key !in nodes
      requires ancestor == Deepest(Elements(order), key, |key|)
      modifies this
      ensures Valid()
      ensures node == if maxCachedNodes < 0 then None else Some(Exact(key))
      ensures order == if maxCachedNodes < 0 then [] else Touched(old(order), key, maxCachedNodes)
    {
      var newIds, past;
      ghost var seen;
      newIds, past, seen := Resume(ancestor, key);
      var cache, logits := Forward(net, newIds, past, seen);
      assert newIds[..|newIds| - 1 + 1] == newIds;
      var last := Node(cache.layers, logits[|newIds| - 1]);
      Insert(key, last);
      var ok := Evict();
      node := if ok then Some(last) else None;
    }

    /** What is left to forward, and a cache object of its own for what a cached prefix has seen. */
    method Resume(ancestor: Option<nat>, key: seq<int>)
      returns (newIds: seq<int>, past: DynamicCache?, ghost seen: seq<int>)
      requires Consistent() && key !in nodes && ancestor == Deepest(Elements(order), key, |key|)
      modifies this`order
      ensures Consistent() && newIds != [] && seen + newIds == Context(key)
      ensures order == if ancestor.Some? then MoveToEnd(old(order), key[..ancestor.value]) else old(order)
      ensures past == null ==> seen == []
      ensures past != null ==> fresh(past) && past.layers == Seen(net, seen)
    {
      newIds, past, seen := Context(key), null, [];
      if ancestor.Some? {
        var prefix := key[..ancestor.value];
        newIds, seen := key[|prefix|..], Context(prefix);
        past := FreshPast(nodes[prefix].stored);
        MoveToEndIs(order, prefix);
        order := MoveToEnd(order, prefix);
        Regroup([Root()], prefix, newIds);
        SplitAt(key, |prefix|);
      }
    }

    method Insert(key: seq<int>, node: Node)
      requires Consistent() && key !in nodes && node == Exact(key)
      modifies this
      ensures Consistent() && order == old(order) + [key]
    {
      nodes := nodes[key := node];
      assert key !in Elements(order);
      order := order + [key];
      assert Elements(order) == Elements(old(order)) + {key};
    }

    method PopOldest()
      requires Consistent() && order != []
      modifies this
      ensures Consistent() && order == old(order)[1..]
    {
      assert Elements(order) == Elements(order[1..]) + {order[0]};
      nodes, order := nodes - {order[0]}, order[1..];
    }

    method Evict() returns (ok: bool)
      requires Consistent()
      modifies this
      ensures Valid() && ok == (maxCachedNodes >= 0)
      ensures order == if maxCachedNodes < 0 then [] else Newest(old(order), maxCachedNodes)
    {
      ghost var was, dropped := order, 0;
      while |order| > maxCachedNodes
        invariant Consistent()
        invariant 0 <= dropped <= |was| && order == was[dropped..] && (dropped > 0 ==> |order| >= maxCachedNodes)
        decreases |order|
      {
        if order == [] { return false; }
        PopOldest();
        dropped := dropped + 1;
      }
      ok := true;
    }

    /** The logits for a prefix: exactly those of one uncached forward over its whole context. */
    method NextLogits(key: seq<int>) returns (logits: Option<Row>)
      requires Valid()
      modifies this
      ensures Valid()
      ensures logits == if maxCachedNodes < 0 then None else Some(Logits(net, Context(key)))
      ensures order == if maxCachedNodes < 0 then [] else Touched(old(order), key, maxCachedNodes)
    {
      if key in nodes {
        MoveToEndIs(order, key);
        order := MoveToEnd(order, key);
        return Some(nodes[key].logits);
      }
      var ancestor: Option<nat> := None;
      var k := |key|;
      while k > 0 && ancestor.None?
        invariant 0 <= k <= |key|
        invariant Deepest(Elements(order), key, |key|) ==
                  if ancestor.Some? then ancestor else Deepest(Elements(order), key, k)
        decreases k
      {
        k := k - 1;
        if key[..k] in nodes { ancestor := Some(k); }
      }
      var node := ForwardFrom(ancestor, key);
      logits := if node.Some? then Some(node.value.logits) else None;
    }

    /** One forward for all prefixes: row d is the log-softmax of what NextLogits says after the first d tokens.
        An empty sequence still gives one row, the root's. */
    method PrefixLogprobs(ids: seq<int>) returns (rows: seq<Row>)
      requires Valid()
      ensures |rows| == if ids == [] then 1 else |ids|
      ensures forall d :: 0 <= d < |rows| ==> rows[d] == logSoftmax(Logits(net, Context(ids[..d])))
    {
      var all := if ids == [] then [Root()] else [Root()] + ids[..|ids| - 1];
      var _, logits := Forward(net, all, null, []);
      rows := seq(|logits|, i requires 0 <= i < |logits| => logSoftmax(logits[i]));
      forall d | 0 <= d < |rows| ensures rows[d] == logSoftmax(Logits(net, Context(ids[..d]))) {
        assert [] + all[..d + 1] == Context(ids[..d]);
      }
    }
  }
}
