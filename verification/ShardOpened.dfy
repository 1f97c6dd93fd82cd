/** What a peer holds after a pull: the packed files, opened one after another. */
module ShardOpened {
  import opened HeaderReader
  import opened Octets
  import opened ShardShip
  import opened ShardStream
  import opened ShardWire
  import opened Wrappers

  /** The tensors of all files, in file order; nothing when a file does not open. */
  function Opened(files: seq<File>): Option<seq<Tensor>> {
    if files == [] then Some([])
    else
      var last := |files| - 1;
      match Opened(files[..last])
      case None => None
      case Some(before) =>
        match OpenFile(files[last].content)
        case None => None
        case Some(ts) => Some(before + ts)
  }

  lemma OpenedSnoc(files: seq<File>, f: File)
    ensures Opened(files).None? ==> Opened(files + [f]).None?
    ensures Opened(files).Some? && OpenFile(f.content).None? ==> Opened(files + [f]).None?
    ensures Opened(files).Some? && OpenFile(f.content).Some? ==>
              Opened(files + [f]) == Some(Opened(files).value + OpenFile(f.content).value)
  {
    assert (files + [f])[..|files|] == files;
    hide OpenFile;
  }

  ghost predicate GroupOpens(items: seq<Tensor>, g: Range)
    requires g.lo <= g.hi <= |items|
  {
    NamesDistinct(items[g.lo..g.hi]) && NoMetadata(items[g.lo..g.hi])
  }

  ghost predicate AllOpen(items: seq<Tensor>, groups: seq<Range>, k: nat)
    requires InBounds(items, groups) && k <= |groups|
  {
    forall j :: 0 <= j < k ==> GroupOpens(items, groups[j])
  }

  /** The first `k` groups end at `hi`. */
  ghost predicate Reach(groups: seq<Range>, k: nat, hi: nat)
    requires k <= |groups|
  {
    hi == if k == 0 then 0 else groups[k - 1].hi
  }

  /** What was opened is all that was meant when everything opens, and fewer tensors or nothing otherwise. */
  ghost predicate OpensAs(o: Option<seq<Tensor>>, meant: seq<Tensor>, all: bool) {
    && (all ==> o == Some(meant))
    && (o.Some? ==> |o.value| <= |meant|)
    && (o.Some? && |o.value| == |meant| ==> all)
  }

  lemma OpensBoth(files: seq<File>, f: File, before: seq<Tensor>, group: seq<Tensor>, p: bool, q: bool)
    requires OpensAs(Opened(files), before, p) && OpensAs(OpenFile(f.content), group, q)
    ensures OpensAs(Opened(files + [f]), before + group, p && q)
  {
    OpenedSnoc(files, f);
    hide Opened, OpenFile;
  }

  lemma GroupFile(items: seq<Tensor>, groups: seq<Range>, k: nat)
    requires InBounds(items, groups) && k < |groups| && PlainTensors(items)
    ensures OpensAs(OpenFile(ShardFile(items[groups[k].lo..groups[k].hi], k).content),
                    items[groups[k].lo..groups[k].hi],
                    GroupOpens(items, groups[k]))
  {
    var g := items[groups[k].lo..groups[k].hi];
    assert PlainTensors(g) && SmallHeader(g);
    hide OpenFile, PlainTensors, SmallHeader, Content, NamesDistinct, NoMetadata;
    FileReadsBackIff(g);
    if OpenFile(Content(g)).Some? {
      OpensAsNoMore(g);
    }
  }

  lemma GroupFollows(groups: seq<Range>, n: nat, k: nat)
    requires Tiles(groups, n) && k < |groups|
    ensures Reach(groups, k, groups[k].lo) && Reach(groups, k + 1, groups[k].hi)
  {
    TilesFollow(groups, n, k);
  }

  lemma OneMoreGroup(items: seq<Tensor>, g: Range)
    requires g.lo <= g.hi <= |items|
    ensures items[..g.lo] + items[g.lo..g.hi] == items[..g.hi]
  {
  }

  lemma AllOpenNext(items: seq<Tensor>, groups: seq<Range>, k: nat)
    requires InBounds(items, groups) && k < |groups|
    ensures AllOpen(items, groups, k + 1) <==> AllOpen(items, groups, k) && GroupOpens(items, groups[k])
  {
    hide GroupOpens;
  }

  lemma FilesNext(items: seq<Tensor>, groups: seq<Range>, k: nat)
    requires InBounds(items, groups) && k < |groups|
    ensures ShardFiles(items, groups, k + 1)
         == ShardFiles(items, groups, k) + [ShardFile(items[groups[k].lo..groups[k].hi], k)]
  {
    hide ShardFile, SmallHeader;
  }

  lemma OneMoreFile(items: seq<Tensor>, groups: seq<Range>, k: nat, before: seq<Tensor>)
    requires InBounds(items, groups) && k < |groups| && PlainTensors(items)
    requires OpensAs(Opened(ShardFiles(items, groups, k)), before, AllOpen(items, groups, k))
    ensures OpensAs(Opened(ShardFiles(items, groups, k + 1)), before + items[groups[k].lo..groups[k].hi],
                    AllOpen(items, groups, k + 1))
  {
    var g := groups[k];
    assert g.lo <= g.hi <= |items| && SmallHeader(items[g.lo..g.hi]);
    hide *;
    GroupFile(items, groups, k);
    AllOpenNext(items, groups, k);
    FilesNext(items, groups, k);
    OpensBoth(ShardFiles(items, groups, k), ShardFile(items[g.lo..g.hi], k), before, items[g.lo..g.hi],
              AllOpen(items, groups, k), GroupOpens(items, g));
  }

  lemma NoFilesOpen(items: seq<Tensor>, groups: seq<Range>, hi: nat)
    requires InBounds(items, groups) && Reach(groups, 0, hi) && hi <= |items|
    ensures OpensAs(Opened(ShardFiles(items, groups, 0)), items[..hi], AllOpen(items, groups, 0))
  {
    hide InBounds, GroupOpens;
  }

  lemma InRange(items: seq<Tensor>, groups: seq<Range>, k: nat, hi: nat)
    requires InBounds(items, groups) && k < |groups| && Reach(groups, k + 1, hi)
    ensures groups[k].lo <= groups[k].hi == hi <= |items|
  {
    hide SmallHeader;
  }

  /** The first `k` files open as the items up to where they reach, or as fewer, or not at all. */
  lemma {:induction false} FirstFilesOpen(items: seq<Tensor>, groups: seq<Range>, n: nat, k: nat, hi: nat)
    requires Tiles(groups, n) && InBounds(items, groups) && k <= |groups| && PlainTensors(items)
    requires Reach(groups, k, hi) && hi <= |items|
    ensures OpensAs(Opened(ShardFiles(items, groups, k)), items[..hi], AllOpen(items, groups, k))
  {
    hide *;
    if k == 0 {
      NoFilesOpen(items, groups, hi);
    } else {
      var g := groups[k - 1];
      GroupFollows(groups, n, k - 1);
      InRange(items, groups, k - 1, hi);
      FirstFilesOpen(items, groups, n, k - 1, g.lo);
      OneMoreFile(items, groups, k - 1, items[..g.lo]);
      OneMoreGroup(items, g);
    }
  }

  /** The packed files a peer has pulled open as exactly the tensors it was to get, in order, if and only if within no
      file a name comes twice or is the reserved one. */
  lemma PulledFilesOpenAsItems(items: seq<Tensor>, groups: seq<Range>, meta: seq<File>)
    requires IsPacking(items, groups) && Servable(items, groups, meta) && PlainTensors(items)
    ensures InBounds(items, groups) && |groups| <= |AllFiles(items, groups, meta)|
    ensures Opened(AllFiles(items, groups, meta)[..|groups|]) == Some(items)
       <==> forall k :: 0 <= k < |groups| ==> NamesDistinct(items[groups[k].lo..groups[k].hi])
                                              && NoMetadata(items[groups[k].lo..groups[k].hi])
  {
    assert |Sizes(items)| == |items|;
    hide PlainTensors, Opened, IsGroup, NamesDistinct, NoMetadata, ShardFile;
    assert AllFiles(items, groups, meta)[..|groups|] == ShardFiles(items, groups, |groups|);
    ReachesEnd(groups, |items|);
    FirstFilesOpen(items, groups, |items|, |groups|, |items|);
    assert items[..|items|] == items;
  }

  lemma ReachesEnd(groups: seq<Range>, n: nat)
    requires Tiles(groups, n)
    ensures Reach(groups, |groups|, n)
  {
  }
}
