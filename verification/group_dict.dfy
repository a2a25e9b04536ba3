/** Reading the datasets of an HDF5 group into an insertion-ordered
    dictionary, the way `_hdf5group2dict` does. */
module GroupDict {
  import opened Results
  import opened Hdf5

  /** A dictionary value: a dataset's value, a nested dictionary read from
      a subgroup, or the subgroup itself left unread. */
  datatype Item = Leaf(value: Value) | Subdict(entries: seq<Entry>) | GroupHandle(links: seq<Link>)

  datatype Entry = Entry(key: string, item: Item)

  /** A Python dict: entries in insertion order. */
  type Dict = seq<Entry>

  predicate UniqueKeys(d: Dict)
  {
    forall i, j :: 0 <= i < j < |d| ==> d[i].key != d[j].key
  }

  predicate HasKey(d: Dict, key: string)
  {
    exists i :: 0 <= i < |d| && d[i].key == key
  }

  /** The position of `key` in `d`, if any. */
  function KeyIndex(d: Dict, key: string): (r: Option<nat>)
    ensures r.None? <==> !HasKey(d, key)
    ensures r.Some? ==> r.value < |d| && d[r.value].key == key
  {
    if |d| == 0 then None
    else if d[|d| - 1].key == key then Some(|d| - 1)
    else
      var r := KeyIndex(d[..|d| - 1], key);
      assert forall i :: 0 <= i < |d| - 1 ==> d[..|d| - 1][i] == d[i];
      r
  }

  /** `d.get(key)`: the item stored under `key`, if any. */
  function Lookup(d: Dict, key: string): (r: Option<Item>)
    ensures r.None? <==> !HasKey(d, key)
    ensures r.Some? ==> Entry(key, r.value) in d
  {
    match KeyIndex(d, key)
    case None => None
    case Some(i) => Some(d[i].item)
  }

  /** With unique keys an entry is found by its key. */
  lemma LookupEntry(d: Dict, key: string, item: Item)
    requires UniqueKeys(d) && Entry(key, item) in d
    ensures Lookup(d, key) == Some(item)
  {
    var j :| 0 <= j < |d| && d[j] == Entry(key, item);
    var i := KeyIndex(d, key).value;
    assert i == j;
  }

  /** `d[key] = item`: afterwards `key` maps to `item` and every other key
      keeps its entry; an existing key keeps its position, a new key is
      appended. */
  function Put(d: Dict, key: string, item: Item): (r: Dict)
    requires UniqueKeys(d)
    ensures UniqueKeys(r)
    ensures forall e :: e in r <==> (e in d && e.key != key) || e == Entry(key, item)
    ensures forall k :: HasKey(r, k) <==> HasKey(d, k) || k == key
    ensures HasKey(d, key) ==> |r| == |d| && forall i :: 0 <= i < |d| ==> r[i].key == d[i].key
    ensures !HasKey(d, key) ==> r == d + [Entry(key, item)]
  {
    match KeyIndex(d, key)
    case None => d + [Entry(key, item)]
    case Some(i) =>
      var r := d[i := Entry(key, item)];
      assert r[i] == Entry(key, item);
      assert forall e :: e in d && e.key != key ==> e in r by {
        forall e | e in d && e.key != key
          ensures e in r
        {
          var j :| 0 <= j < |d| && d[j] == e;
          assert r[j] == e;
        }
      }
      assert forall e :: e in r ==> (e in d && e.key != key) || e == Entry(key, item) by {
        forall e | e in r
          ensures (e in d && e.key != key) || e == Entry(key, item)
        {
          var j :| 0 <= j < |r| && r[j] == e;
          if j != i {
            assert e == d[j] && d[j].key != d[i].key;
          }
        }
      }
      r
  }

  /** Lookup after assignment: the assigned key gives the new item, every
      other key what it gave before. */
  lemma LookupPut(d: Dict, key: string, item: Item, k: string)
    requires UniqueKeys(d)
    ensures Lookup(Put(d, key, item), k) == if k == key then Some(item) else Lookup(d, k)
  {
    var r := Put(d, key, item);
    if k == key {
      LookupEntry(r, key, item);
    } else if Lookup(r, k).Some? {
      LookupEntry(d, k, Lookup(r, k).value);
    }
  }

  /** A read dataset's value after `_hdf5group2dict` prepares it, together
      with its key: a one-element array is unwrapped and only then is the
      key stripped of leading whitespace; a bytes value is decoded as
      Latin-1. */
  function ReadDataset(key: string, v: Value): (r: (string, Value))
    ensures !r.1.Bytes?
    ensures v.Array? && |v.items| == 1 ==> r.0 == LStrip(key, IsSpace)
    ensures !(v.Array? && |v.items| == 1) ==> r.0 == key
    ensures v.Array? && |v.items| == 1 && !v.items[0].Bytes? ==> r.1 == v.items[0]
    ensures v.Array? && |v.items| == 1 && v.items[0].Bytes? ==> r.1 == Text(Latin1Decode(v.items[0].bytes))
    ensures v.Bytes? ==> r.1 == Text(Latin1Decode(v.bytes))
    ensures !v.Bytes? && !(v.Array? && |v.items| == 1) ==> r.1 == v
  {
    var unwrapped := if v.Array? && |v.items| == 1 then (LStrip(key, IsSpace), v.items[0]) else (key, v);
    var decoded := if unwrapped.1.Bytes? then Text(Latin1Decode(unwrapped.1.bytes)) else unwrapped.1;
    (unwrapped.0, decoded)
  }

  /** The key under which `_hdf5group2dict` writes one link, or None when
      the link is skipped: a dataset is skipped when its name, or its key
      after stripping, is listed in `skip`; a subgroup is skipped only when
      not recursing and its name is listed. */
  function KeyOf(link: Link, recursive: bool, skip: seq<string>): Option<string>
  {
    match link.node
    case Dataset(v) =>
      var key := ReadDataset(link.name, v).0;
      if link.name in skip || key in skip then None else Some(key)
    case Group(_) =>
      if recursive || link.name !in skip then Some(link.name) else None
  }

  /** The item `_hdf5group2dict` writes for a link it does not skip: a
      dataset's prepared value, a subgroup read into a fresh nested
      dictionary when recursing, or else the subgroup itself. */
  function ItemOf(link: Link, recursive: bool, skip: seq<string>): Item
    decreases link, 1
  {
    match link.node
    case Dataset(v) => Leaf(ReadDataset(link.name, v).1)
    case Group(children) =>
      if recursive then Subdict(GroupToDict(children, [], recursive, skip)) else GroupHandle(children)
  }

  /** What holds of every entry `_hdf5group2dict` writes: datasets are
      decoded and not listed in `skip`; subgroups become nested
      dictionaries exactly when recursing, and unread groups are never
      listed in `skip`. */
  predicate Written(e: Entry, recursive: bool, skip: seq<string>)
  {
    match e.item
    case Leaf(v) => !v.Bytes? && e.key !in skip
    case Subdict(entries) => recursive && forall j :: 0 <= j < |entries| ==> Written(entries[j], recursive, skip)
    case GroupHandle(_) => !recursive && e.key !in skip
  }

  predicate AllWritten(d: Dict, recursive: bool, skip: seq<string>)
  {
    forall j :: 0 <= j < |d| ==> Written(d[j], recursive, skip)
  }

  /** One iteration of the loop over `group.items()`: the link's key, if it
      is not skipped, now gives the link's item and every other key what it
      gave before; an existing key keeps its place, a new one is appended. */
  function AddLink(d: Dict, link: Link, recursive: bool, skip: seq<string>): (r: Dict)
    requires UniqueKeys(d)
    ensures UniqueKeys(r)
    ensures forall k :: HasKey(r, k) <==> HasKey(d, k) || KeyOf(link, recursive, skip) == Some(k)
    ensures Updated(d, r, KeyOf(link, recursive, skip), ItemOf(link, recursive, skip))
    decreases link, 3
  {
    PutUpdates(d, KeyOf(link, recursive, skip), ItemOf(link, recursive, skip));
    AddItem(d, link, recursive, skip)
  }

  /** Every entry one iteration writes obeys `Written`. */
  lemma AddLinkWritten(d: Dict, link: Link, recursive: bool, skip: seq<string>)
    requires UniqueKeys(d)
    ensures AllWritten(d, recursive, skip) ==> AllWritten(AddLink(d, link, recursive, skip), recursive, skip)
    decreases link, 4
  {
    var key := KeyOf(link, recursive, skip);
    if AllWritten(d, recursive, skip) && key.Some? {
      var r := AddLink(d, link, recursive, skip);
      assert r == Put(d, key.value, ItemOf(link, recursive, skip));
      ItemWritten(link, recursive, skip);
      forall j | 0 <= j < |r|
        ensures Written(r[j], recursive, skip)
      {
        assert r[j] in r;
      }
    }
  }

  /** The entry written for a link that is not skipped obeys `Written`. */
  lemma ItemWritten(link: Link, recursive: bool, skip: seq<string>)
    requires KeyOf(link, recursive, skip).Some?
    ensures Written(Entry(KeyOf(link, recursive, skip).value, ItemOf(link, recursive, skip)), recursive, skip)
    decreases link, 3
  {
    match link.node
    case Dataset(v) =>
    case Group(children) =>
      if recursive {
        assert AllWritten([], recursive, skip);
      }
  }

  /** Where one iteration puts its entry: a skipped link changes nothing,
      an existing key keeps every position, a new key is appended. */
  lemma AddLinkPlaces(d: Dict, link: Link, recursive: bool, skip: seq<string>)
    requires UniqueKeys(d)
    ensures var r := AddLink(d, link, recursive, skip);
      var key := KeyOf(link, recursive, skip);
      && (key.None? ==> r == d)
      && (key.Some? && HasKey(d, key.value) ==> |r| == |d| && forall i :: 0 <= i < |d| ==> r[i].key == d[i].key)
      && (key.Some? && !HasKey(d, key.value) ==> r == d + [Entry(key.value, ItemOf(link, recursive, skip))])
  {
  }

  /** Assigning under a key, or under no key at all, is an update. */
  lemma PutUpdates(d: Dict, key: Option<string>, item: Item)
    requires UniqueKeys(d)
    ensures Updated(d, if key.Some? then Put(d, key.value, item) else d, key, item)
  {
    if key.Some? {
      forall k ensures Lookup(Put(d, key.value, item), k) == if key == Some(k) then Some(item) else Lookup(d, k) {
        LookupPut(d, key.value, item, k);
      }
    }
  }

  /** `r` is `d` with `key`, if any, now giving `item`: every other key
      gives what it gave in `d`. */
  ghost predicate Updated(d: Dict, r: Dict, key: Option<string>, item: Item)
  {
    forall k :: Lookup(r, k) == if key == Some(k) then Some(item) else Lookup(d, k)
  }

  /** The branches of one loop iteration, lines 63-83. */
  function AddItem(d: Dict, link: Link, recursive: bool, skip: seq<string>): (r: Dict)
    requires UniqueKeys(d)
    ensures KeyOf(link, recursive, skip).None? ==> r == d
    ensures KeyOf(link, recursive, skip).Some? ==> r == Put(d, KeyOf(link, recursive, skip).value, ItemOf(link, recursive, skip))
    decreases link, 2
  {
    match link.node
    case Dataset(v) =>
      if link.name in skip then d
      else
        var (key, value) := ReadDataset(link.name, v);
        if key in skip then d else Put(d, key, Leaf(value))
    case Group(children) =>
      if recursive then Put(d, link.name, Subdict(GroupToDict(children, [], recursive, skip)))
      else if link.name in skip then d
      else Put(d, link.name, GroupHandle(children))
  }

  /** `_hdf5group2dict(group, d, recursive, skip)` for a group whose links
      are `links`, in iteration order: the keys afterwards are those of `d`
      and those the links are written under, and every entry written
      obeys `Written`. */
  function GroupToDict(links: seq<Link>, d: Dict, recursive: bool, skip: seq<string>): (r: Dict)
    requires UniqueKeys(d)
    ensures UniqueKeys(r)
    ensures forall k :: HasKey(r, k) <==> HasKey(d, k) || exists i :: 0 <= i < |links| && KeyOf(links[i], recursive, skip) == Some(k)
    ensures AllWritten(d, recursive, skip) ==> AllWritten(r, recursive, skip)
    decreases links, 0
  {
    if |links| == 0 then d
    else
      var r := GroupToDict(links[1..], AddLink(d, links[0], recursive, skip), recursive, skip);
      assert forall i :: 1 <= i < |links| ==> links[1..][i - 1] == links[i];
      AddLinkWritten(d, links[0], recursive, skip);
      r
  }

  /** A key no link is written under keeps the value it had in `d`. */
  lemma {:induction false} GroupToDictUnwritten(links: seq<Link>, d: Dict, recursive: bool, skip: seq<string>, k: string)
    requires UniqueKeys(d)
    requires forall i :: 0 <= i < |links| ==> KeyOf(links[i], recursive, skip) != Some(k)
    ensures Lookup(GroupToDict(links, d, recursive, skip), k) == Lookup(d, k)
    decreases |links|
  {
    if |links| > 0 {
      var d1 := AddLink(d, links[0], recursive, skip);
      assert forall i :: 1 <= i < |links| ==> links[1..][i - 1] == links[i];
      GroupToDictUnwritten(links[1..], d1, recursive, skip, k);
    }
  }

  /** Last write wins: a key's value is the item of the last link written
      under it. */
  lemma {:induction false} GroupToDictLastWrite(
    links: seq<Link>, d: Dict, recursive: bool, skip: seq<string>, k: string, i: nat)
    requires UniqueKeys(d)
    requires i < |links| && KeyOf(links[i], recursive, skip) == Some(k)
    requires forall j :: i < j < |links| ==> KeyOf(links[j], recursive, skip) != Some(k)
    ensures Lookup(GroupToDict(links, d, recursive, skip), k) == Some(ItemOf(links[i], recursive, skip))
    decreases |links|
  {
    var d1 := AddLink(d, links[0], recursive, skip);
    assert forall j :: 1 <= j < |links| ==> links[1..][j - 1] == links[j];
    if i == 0 {
      GroupToDictUnwritten(links[1..], d1, recursive, skip, k);
    } else {
      GroupToDictLastWrite(links[1..], d1, recursive, skip, k, i - 1);
    }
  }

  /** Some link is written under `a` before any link is written under `b`. */
  ghost predicate WrittenBefore(links: seq<Link>, recursive: bool, skip: seq<string>, a: string, b: string)
  {
    exists i :: 0 <= i < |links| && KeyOf(links[i], recursive, skip) == Some(a) &&
      forall j :: 0 <= j <= i ==> KeyOf(links[j], recursive, skip) != Some(b)
  }

  /** Insertion order: the keys of `d` keep their places, and the new keys
      follow in the order their first links come in. */
  lemma {:induction false} GroupToDictOrder(links: seq<Link>, d: Dict, recursive: bool, skip: seq<string>)
    requires UniqueKeys(d)
    ensures var r := GroupToDict(links, d, recursive, skip);
      && |d| <= |r|
      && (forall p :: 0 <= p < |d| ==> r[p].key == d[p].key)
      && (forall p, q :: |d| <= p < q < |r| ==> WrittenBefore(links, recursive, skip, r[p].key, r[q].key))
    decreases |links|
  {
    if |links| > 0 {
      var d1 := AddLink(d, links[0], recursive, skip);
      AddLinkPlaces(d, links[0], recursive, skip);
      var rest := links[1..];
      assert forall j :: 1 <= j < |links| ==> rest[j - 1] == links[j];
      GroupToDictOrder(rest, d1, recursive, skip);
      var r := GroupToDict(links, d, recursive, skip);
      assert r == GroupToDict(rest, d1, recursive, skip);
      var key := KeyOf(links[0], recursive, skip);
      if key.Some? {
        assert HasKey(d1, key.value);
        var m :| 0 <= m < |d1| && d1[m].key == key.value;
        assert r[m].key == key.value;
      }
      forall p, q | |d| <= p < q < |r|
        ensures WrittenBefore(links, recursive, skip, r[p].key, r[q].key)
      {
        OrderStep(links, recursive, skip, r, |d|, |d1|, p, q);
      }
    }
  }

  /** The inductive step of `GroupToDictOrder` for one pair of new
      positions of the final dictionary `r`: `n0` entries were there
      before the first link, `n1` after it. */
  lemma OrderStep(links: seq<Link>, recursive: bool, skip: seq<string>, r: Dict, n0: nat, n1: nat, p: nat, q: nat)
    requires |links| > 0 && UniqueKeys(r)
    requires n0 <= p < q < |r| && n1 <= |r| && (n1 == n0 || n1 == n0 + 1)
    requires n1 == n0 + 1 ==> KeyOf(links[0], recursive, skip) == Some(r[n0].key)
    requires KeyOf(links[0], recursive, skip).Some? ==>
      exists m :: 0 <= m < n1 && r[m].key == KeyOf(links[0], recursive, skip).value
    requires forall m, m' :: n1 <= m < m' < |r| ==> WrittenBefore(links[1..], recursive, skip, r[m].key, r[m'].key)
    ensures WrittenBefore(links, recursive, skip, r[p].key, r[q].key)
  {
    var rest := links[1..];
    assert KeyOf(links[0], recursive, skip) != Some(r[q].key);
    if p < n1 {
      assert KeyOf(links[0], recursive, skip) == Some(r[p].key);
      assert forall j :: 0 <= j <= 0 ==> KeyOf(links[j], recursive, skip) != Some(r[q].key);
    } else {
      assert WrittenBefore(rest, recursive, skip, r[p].key, r[q].key);
      var i' :| 0 <= i' < |rest| && KeyOf(rest[i'], recursive, skip) == Some(r[p].key) &&
        forall j :: 0 <= j <= i' ==> KeyOf(rest[j], recursive, skip) != Some(r[q].key);
      assert KeyOf(links[i' + 1], recursive, skip) == Some(r[p].key);
      assert forall j :: 1 <= j <= i' + 1 ==> links[j] == rest[j - 1];
    }
  }



  /** A dataset that is neither an array nor bytes, under a new key, is
      appended as it is. */
  lemma AddUnlistedDataset(d: Dict, name: string, v: Value)
    requires UniqueKeys(d) && !HasKey(d, name)
    requires !v.Array? && !v.Bytes?
    ensures AddLink(d, Link(name, Dataset(v)), false, []) == d + [Entry(name, Leaf(v))]
  {
    assert ReadDataset(name, v) == (name, v);
    AddLinkPlaces(d, Link(name, Dataset(v)), false, []);
  }

  /** Without recursion a subgroup under a new key is appended unread. */
  lemma AddUnlistedGroup(d: Dict, group: Link)
    requires UniqueKeys(d) && !HasKey(d, group.name) && group.node.Group?
    ensures AddLink(d, group, false, []) == d + [Entry(group.name, GroupHandle(group.node.links))]
  {
    AddLinkPlaces(d, group, false, []);
  }

  /** A group of two links is read one link after the other. */
  lemma GroupToDictOfTwo(a: Link, b: Link, d: Dict)
    requires UniqueKeys(d)
    ensures GroupToDict([a, b], d, false, []) == AddLink(AddLink(d, a, false, []), b, false, [])
  {
    var d1 := AddLink(d, a, false, []);
    assert [a, b][1..] == [b];
    assert GroupToDict([a, b], d, false, []) == GroupToDict([b], d1, false, []);
    var d2 := AddLink(d1, b, false, []);
    assert [b][1..] == [];
    assert GroupToDict([b], d1, false, []) == GroupToDict([], d2, false, []);
  }
}
