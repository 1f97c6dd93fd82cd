/** A peer's shard from end to end: selected by name, looked up, packed, served, and pulled on the other side. */
module ShardShip {
  import opened Octets
  import opened Sharding
  import opened ShardSelect
  import opened ShardStream
  import opened ShardWire
  import opened Wrappers

  // ---- from names to tensors --------------------------------------------------------------------------------------

  function Names(tensors: seq<Tensor>): (names: seq<Name>)
    ensures |names| == |tensors|
  {
    seq(|tensors|, i requires 0 <= i < |tensors| => tensors[i].name)
  }

  /** The last tensor of that name. */
  function LastOf(tensors: seq<Tensor>, name: Name): (r: Option<nat>)
    ensures r.Some? ==> r.value < |tensors| && tensors[r.value].name == name
    ensures forall j :: 0 <= j < |tensors| && tensors[j].name == name ==> r.Some? && j <= r.value
  {
    if tensors == [] then None
    else
      var last := |tensors| - 1;
      if tensors[last].name == name then Some(last) else LastOf(tensors[..last], name)
  }

  ghost predicate Indexes(index: map<Name, nat>, tensors: seq<Tensor>) {
    forall name :: LastOf(tensors, name) == if name in index then Some(index[name]) else None
  }

  /** The index of a snapshot: a name seen again replaces the earlier entry. */
  method BuildIndex(tensors: seq<Tensor>) returns (index: map<Name, nat>)
    ensures Indexes(index, tensors)
  {
    index := map[];
    for i := 0 to |tensors|
      invariant Indexes(index, tensors[..i])
    {
      assert tensors[..i + 1][..i] == tensors[..i];
      index := index[tensors[i].name := i];
    }
    assert tensors[..|tensors|] == tensors;
  }

  /** What looking the names up gives; a name without a tensor is skipped. */
  function Found(names: seq<Name>, tensors: seq<Tensor>): seq<Tensor> {
    if names == [] then []
    else
      var last := |names| - 1;
      var r := LastOf(tensors, names[last]);
      Found(names[..last], tensors) + (if r.Some? then [tensors[r.value]] else [])
  }

  method FindAll(names: seq<Name>, tensors: seq<Tensor>, index: map<Name, nat>) returns (items: seq<Tensor>)
    requires Indexes(index, tensors)
    ensures items == Found(names, tensors)
  {
    items := [];
    for k := 0 to |names|
      invariant items == Found(names[..k], tensors)
    {
      assert names[..k + 1][..k] == names[..k];
      assert LastOf(tensors, names[k]) == if names[k] in index then Some(index[names[k]]) else None;
      if names[k] in index {
        items := items + [tensors[index[names[k]]]];
      }
    }
    assert names[..|names|] == names;
  }

  /** The tensors a peer is sent. */
  function ItemsFor(tensors: seq<Tensor>, s: ExpertSharding, me: nat): seq<Tensor>
    requires s.Valid()
  {
    Found(Selected(Names(tensors), s, me), tensors)
  }

  /** The tensors a peer is meant to get: every wanted one of the snapshot. */
  function WantedTensors(tensors: seq<Tensor>, s: ExpertSharding, me: nat): seq<Tensor>
    requires s.Valid()
  {
    if tensors == [] then []
    else
      var last := |tensors| - 1;
      WantedTensors(tensors[..last], s, me) + (if Wants(s, me, tensors[last].name) then [tensors[last]] else [])
  }

  /** The tensor found under the name of tensor `i` is tensor `i`'s equal. */
  ghost predicate FindsItself(tensors: seq<Tensor>, i: nat)
    requires i < |tensors|
  {
    tensors[i] == tensors[LastOf(tensors, tensors[i].name).value]
  }

  lemma SnocEqual<T>(a: seq<T>, x: T, b: seq<T>, y: T)
    requires |a| == |b|
    ensures a + [x] == b + [y] <==> a == b && x == y
  {
    if a + [x] == b + [y] {
      assert a == (a + [x])[..|a|] && b == (b + [y])[..|b|];
      assert x == (a + [x])[|a|] && y == (b + [y])[|b|];
    }
  }

  lemma SelectedSnoc(tensors: seq<Tensor>, s: ExpertSharding, me: nat, n: nat)
    requires s.Valid() && n < |tensors|
    ensures var name := tensors[n].name;
            Selected(Names(tensors[..n + 1]), s, me)
                == Selected(Names(tensors[..n]), s, me) + (if Wants(s, me, name) then [name] else [])
    ensures WantedTensors(tensors[..n + 1], s, me)
         == WantedTensors(tensors[..n], s, me) + (if Wants(s, me, tensors[n].name) then [tensors[n]] else [])
  {
    hide Wants;
    assert tensors[..n + 1][..n] == tensors[..n];
    assert Names(tensors[..n + 1])[..n] == Names(tensors[..n]);
  }

  lemma FoundSnoc(names: seq<Name>, name: Name, tensors: seq<Tensor>)
    requires LastOf(tensors, name).Some?
    ensures Found(names + [name], tensors) == Found(names, tensors) + [tensors[LastOf(tensors, name).value]]
  {
    assert (names + [name])[..|names|] == names;
  }

  ghost predicate AllFindThemselves(tensors: seq<Tensor>, s: ExpertSharding, me: nat, n: nat)
    requires s.Valid() && n <= |tensors|
  {
    forall i: nat :: i < n && Wants(s, me, tensors[i].name) ==> FindsItself(tensors, i)
  }

  lemma AllFindThemselvesNext(tensors: seq<Tensor>, s: ExpertSharding, me: nat, n: nat)
    requires s.Valid() && n < |tensors|
    ensures AllFindThemselves(tensors, s, me, n + 1)
       <==> AllFindThemselves(tensors, s, me, n) && (Wants(s, me, tensors[n].name) ==> FindsItself(tensors, n))
  {
    hide Wants, FindsItself;
  }

  lemma FoundAgain(tensors: seq<Tensor>, n: nat)
    requires n < |tensors|
    ensures var r := LastOf(tensors, tensors[n].name);
            r.Some? && (FindsItself(tensors, n) <==> tensors[r.value] == tensors[n])
  {
  }

  /** What the first `n` tensors contribute to the peer's list, as looked up and as meant. */
  ghost predicate Contributes(tensors: seq<Tensor>, s: ExpertSharding, me: nat, n: nat)
    requires s.Valid() && n <= |tensors|
  {
    var items, wanted := Found(Selected(Names(tensors[..n]), s, me), tensors), WantedTensors(tensors[..n], s, me);
    |items| == |wanted| && (items == wanted <==> AllFindThemselves(tensors, s, me, n))
  }

  lemma {:induction false} PrefixSelected(tensors: seq<Tensor>, s: ExpertSharding, me: nat, n: nat)
    requires s.Valid() && n <= |tensors|
    ensures Contributes(tensors, s, me, n)
  {
    hide Wants, LastOf, FindsItself;
    if n > 0 {
      PrefixSelected(tensors, s, me, n - 1);
      hide Selected, Found, WantedTensors, AllFindThemselves, Names;
      SelectedSnoc(tensors, s, me, n - 1);
      AllFindThemselvesNext(tensors, s, me, n - 1);
      var name := tensors[n - 1].name;
      if Wants(s, me, name) {
        var names := Selected(Names(tensors[..n - 1]), s, me);
        FoundAgain(tensors, n - 1);
        FoundSnoc(names, name, tensors);
        SnocEqual(Found(names, tensors), tensors[LastOf(tensors, name).value], WantedTensors(tensors[..n - 1], s, me),
            tensors[n - 1]);
      } else {
        assert Selected(Names(tensors[..n]), s, me) == Selected(Names(tensors[..n - 1]), s, me);
        assert WantedTensors(tensors[..n], s, me) == WantedTensors(tensors[..n - 1], s, me);
      }
    }
  }

  /** No wanted name is declared twice with different contents. */
  ghost predicate OneContentPerName(tensors: seq<Tensor>, s: ExpertSharding, me: nat)
    requires s.Valid()
  {
    forall i, j :: 0 <= i < j < |tensors| && tensors[i].name == tensors[j].name && Wants(s, me, tensors[i].name) ==>
      tensors[i] == tensors[j]
  }

  lemma OneContentFindsItself(tensors: seq<Tensor>, s: ExpertSharding, me: nat)
    requires s.Valid()
    ensures AllFindThemselves(tensors, s, me, |tensors|) <==> OneContentPerName(tensors, s, me)
  {
    hide Wants;
    if AllFindThemselves(tensors, s, me, |tensors|) {
      forall i, j | 0 <= i < j < |tensors| && tensors[i].name == tensors[j].name && Wants(s, me, tensors[i].name)
        ensures tensors[i] == tensors[j]
      {
        assert FindsItself(tensors, i) && FindsItself(tensors, j);
      }
    }
  }

  /** A peer is sent exactly the tensors it wants, in order, if and only if no wanted name is declared twice with
      different contents: the look-up by name always gives the last one. */
  lemma ItemsAreWantedIff(tensors: seq<Tensor>, s: ExpertSharding, me: nat)
    requires s.Valid()
    ensures ItemsFor(tensors, s, me) == WantedTensors(tensors, s, me) <==> OneContentPerName(tensors, s, me)
  {
    assert tensors[..|tensors|] == tensors;
    hide Wants, FindsItself, Found, WantedTensors, Selected, OneContentPerName, AllFindThemselves;
    PrefixSelected(tensors, s, me, |tensors|);
    OneContentFindsItself(tensors, s, me);
  }

  lemma {:induction false} FoundIsLast(names: seq<Name>, tensors: seq<Tensor>, t: Tensor)
    requires t in Found(names, tensors)
    ensures exists j: nat :: LastOf(tensors, t.name) == Some(j) && tensors[j] == t
  {
    var last := |names| - 1;
    var r := LastOf(tensors, names[last]);
    var front := Found(names[..last], tensors);
    if t in front {
      FoundIsLast(names[..last], tensors, t);
    } else {
      assert r.Some? && t == tensors[r.value];
      assert LastOf(tensors, t.name) == Some(r.value);
    }
  }

  /** An earlier tensor whose name comes again with another content is sent to no peer. */
  lemma ShadowedIsNeverShipped(tensors: seq<Tensor>, s: ExpertSharding, me: nat, i: nat, j: nat)
    requires s.Valid() && i < j < |tensors| && LastOf(tensors, tensors[i].name) == Some(j) && tensors[i] != tensors[j]
    ensures tensors[i] !in ItemsFor(tensors, s, me)
  {
    if tensors[i] in ItemsFor(tensors, s, me) {
      FoundIsLast(Selected(Names(tensors), s, me), tensors, tensors[i]);
      assert false;
    }
  }

  lemma PairSelected(first: Tensor, second: Tensor, s: ExpertSharding, me: nat)
    requires s.Valid() && first.name == second.name && Wants(s, me, first.name)
    ensures Selected(Names([first, second]), s, me) == [first.name, first.name]
    ensures WantedTensors([first, second], s, me) == [first, second]
  {
    hide Wants;
    var tensors := [first, second];
    assert tensors[..0] == [] && tensors[..1] == [first] && tensors[..2] == tensors;
    SelectedSnoc(tensors, s, me, 0);
    SelectedSnoc(tensors, s, me, 1);
  }

  lemma PairFound(first: Tensor, second: Tensor)
    requires first.name == second.name
    ensures Found([first.name, first.name], [first, second]) == [second, second]
  {
    var tensors, name := [first, second], first.name;
    assert LastOf(tensors, name) == Some(1) && Found([], tensors) == [];
    hide LastOf, Found;
    FoundSnoc([], name, tensors);
    FoundSnoc([name], name, tensors);
    assert [] + [name] == [name] && [name] + [name] == [name, name];
  }

  /** Two tensors of one resident name and different bytes: every peer wants both, and is sent the second twice. */
  lemma SecondCopyReplacesFirst(s: ExpertSharding, me: nat) returns (first: Tensor, second: Tensor)
    requires s.Valid()
    ensures first.name == second.name && first.data != second.data
    ensures WantedTensors([first, second], s, me) == [first, second]
    ensures ItemsFor([first, second], s, me) == [second, second]
  {
    var name: Name := [110, 111, 114, 109];
    first, second := Tensor(name, [], [], [0]), Tensor(name, [], [], [1]);
    NoMarkNoExpert(name);
    hide ExpertIdOf, Selected, Found, WantedTensors, LastOf;
    PairSelected(first, second, s, me);
    PairFound(first, second);
  }

  lemma NoMarkNoExpert(name: Name)
    requires |name| < |MARK|
    ensures ExpertIdOf(name) == None
  {
  }

  // ---- end to end ---------------------------------------------------------------------------------------------------

  ghost predicate IsPacking(items: seq<Tensor>, groups: seq<Range>) {
    Tiles(groups, |items|) && forall k :: 0 <= k < |groups| ==> IsGroup(Sizes(items), MAX_FILE, groups[k])
  }

  /** Which of a group's `n` tensors the reader threads deliver, in which order. */
  ghost predicate Deliveries(deliver: (nat, nat) -> seq<nat>) {
    forall k: nat, n: nat, i: nat :: i < |deliver(k, n)| ==> deliver(k, n)[i] < n
  }

  /** The peer's whole list fits the wire format, however it is packed. */
  ghost predicate FitsTheWire(items: seq<Tensor>, meta: seq<File>) {
    forall groups :: IsPacking(items, groups) ==> Servable(items, groups, meta)
  }

  function Arrivals(groups: seq<Range>, deliver: (nat, nat) -> seq<nat>): (a: seq<seq<nat>>)
    requires forall k :: 0 <= k < |groups| ==> groups[k].lo <= groups[k].hi
    ensures |a| == |groups|
  {
    seq(|groups|, k requires 0 <= k < |groups| => deliver(k, groups[k].hi - groups[k].lo))
  }

  lemma PackedGroups(items: seq<Tensor>, groups: seq<Range>, deliver: (nat, nat) -> seq<nat>)
    requires IsPacking(items, groups) && Deliveries(deliver)
    ensures forall k :: 0 <= k < |groups| ==> groups[k].lo <= groups[k].hi <= |items|
    ensures Plausible(groups, Arrivals(groups, deliver))
  {
    hide Tiles;
    assert |Sizes(items)| == |items|;
  }

  /** What comes of serving the groups when only the first `reach` bytes get through. */
  ghost predicate Shipped(items: seq<Tensor>, groups: seq<Range>, meta: seq<File>, deliver: (nat, nat) -> seq<nat>,
                          copies: seq<Copy>, reach: nat, read: bool, received: Octets, pulled: Option<seq<File>>)
    requires Servable(items, groups, meta)
  {
    var files := AllFiles(items, groups, meta);
    // the server succeeds when every read of every group and every copy of a metadata file does
    && (forall k :: 0 <= k < |groups| ==> groups[k].lo <= groups[k].hi)
    && (read <==> EveryRead(groups, Arrivals(groups, deliver), |groups|) && AllCopied(copies, |copies|))
    // what gets through is part of the stream, and all of it when nothing failed
    && received <= Stream(files)
    && (read && reach >= |Stream(files)| ==> received == Stream(files))
    // the pull ends well exactly when all of it got through, and then wrote exactly the files meant
    && pulled == if received == Stream(files) then Some(files) else None
  }

  /** Selects, looks up, packs, serves and pulls a peer's shard. */
  method ShipShard(tensors: seq<Tensor>, s: ExpertSharding, me: nat, meta: seq<File>, deliver: (nat, nat) -> seq<nat>,
                   copies: seq<Copy>, reach: nat)
      returns (groups: seq<Range>, read: bool, received: Octets, pulled: Option<seq<File>>)
    requires s.Valid() && Deliveries(deliver) && FitsTheWire(ItemsFor(tensors, s, me), meta) && |copies| == |meta|
    ensures IsPacking(ItemsFor(tensors, s, me), groups) && Servable(ItemsFor(tensors, s, me), groups, meta)
    ensures Shipped(ItemsFor(tensors, s, me), groups, meta, deliver, copies, reach, read, received, pulled)
  {
    var index := BuildIndex(tensors);
    var names := SelectShardNames(Names(tensors), s, me);
    var items := FindAll(names, tensors, index);
    groups := PackForPeer(items);
    assert items == ItemsFor(tensors, s, me) && IsPacking(items, groups) && Servable(items, groups, meta);
    hide *;
    read, received, pulled := ServeAndPull(items, groups, meta, deliver, copies, reach);
  }

  method ServeAndPull(items: seq<Tensor>, groups: seq<Range>, meta: seq<File>, deliver: (nat, nat) -> seq<nat>,
                      copies: seq<Copy>, reach: nat)
      returns (read: bool, received: Octets, pulled: Option<seq<File>>)
    requires IsPacking(items, groups) && Servable(items, groups, meta) && Deliveries(deliver) && |copies| == |meta|
    ensures Shipped(items, groups, meta, deliver, copies, reach, read, received, pulled)
  {
    PackedGroups(items, groups, deliver);
    assert InBounds(items, groups) && AllSendable(AllFiles(items, groups, meta));
    ghost var files := AllFiles(items, groups, meta);
    hide *;
    var sent;
    sent, read := ServePeer(items, groups, meta, Arrivals(groups, deliver), copies, files);
    received := if reach < |sent| then sent[..reach] else sent;
    pulled := PullAll(received);
    PrefixOfPrefix(received, sent, Stream(files));
    PullIsAllOrNothing(items, groups, meta, received);
    ShippedWhen(items, groups, meta, deliver, copies, reach, read, received, pulled);
  }

  lemma PrefixOfPrefix(p: Octets, q: Octets, r: Octets)
    requires p <= q <= r
    ensures p <= r
  {
  }

  lemma ShippedWhen(items: seq<Tensor>, groups: seq<Range>, meta: seq<File>, deliver: (nat, nat) -> seq<nat>,
                    copies: seq<Copy>, reach: nat, read: bool, received: Octets, pulled: Option<seq<File>>)
    requires Servable(items, groups, meta)
    requires forall k :: 0 <= k < |groups| ==> groups[k].lo <= groups[k].hi
    requires read <==> EveryRead(groups, Arrivals(groups, deliver), |groups|) && AllCopied(copies, |copies|)
    requires var stream := Stream(AllFiles(items, groups, meta));
             && received <= stream && (read && reach >= |stream| ==> received == stream)
             && pulled == if received == stream then Some(AllFiles(items, groups, meta)) else None
    ensures Shipped(items, groups, meta, deliver, copies, reach, read, received, pulled)
  {
    hide EveryRead, Arrivals, Stream, AllFiles;
  }

  /** And the files hold every byte of every tensor meant, in order. */
  lemma ShippedFilesHoldEverything(items: seq<Tensor>, groups: seq<Range>)
    requires IsPacking(items, groups)
    ensures forall k :: 0 <= k < |groups| ==> groups[k].lo <= groups[k].hi <= |items|
    ensures Payloads(items, groups) == Payload(items)
  {
    assert |Sizes(items)| == |items|;
    PackingKeepsEveryByte(items, groups, |items|);
    assert items[..|items|] == items;
  }
}
