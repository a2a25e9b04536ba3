/** The manufacturer-independent part of the h5ebsd reader: finding the
    scan groups of a file, reading its manufacturer and version, deciding
    whether the file is a supported h5ebsd file, and picking the scan
    groups a caller asks for. */
module H5ebsd {
  import opened Results
  import opened Seqs
  import opened Hdf5
  import opened GroupDict

  /** The ways the reader fails: an IOError with its reason, and the
      AttributeError and IndexError the code lets escape. */
  datatype ReaderError = IOError(reason: Reason) | AttributeError | IndexError

  datatype Reason =
    | HeaderUnreadable
    | NoEbsdScanGroup
    | UnsupportedManufacturer(manufacturer: string)
    | ScanNotFound(name: string)

  /** The manufacturers a reader exists for, and the name of the dataset
      holding each one's patterns. */
  const ManufacturerPatterns: map<string, string> :=
    map[
      "bruker nano" := "RawPatterns",
      "edax" := "Pattern",
      "kikuchipy" := "patterns",
      "oxford instruments" := "Processed Patterns"
    ]

  // ---------------------------------------------------------------------
  // Scan groups

  /** A top group of the file, with its absolute HDF5 path. */
  datatype ScanGroup = ScanGroup(path: string, links: seq<Link>)

  function GroupMask(file: seq<Link>): (m: seq<bool>)
    ensures |m| == |file|
    ensures forall k :: 0 <= k < |file| ==> (m[k] <==> file[k].node.Group?)
  {
    seq(|file|, k requires 0 <= k < |file| => file[k].node.Group?)
  }

  function AsScanGroup(link: Link): ScanGroup
    requires link.node.Group?
  {
    ScanGroup("/" + link.name, link.node.links)
  }

  /** Every top-level link to a group is a scan group, in the file's
      order; datasets in the top group are not. */
  function ScanGroups(file: seq<Link>): (groups: seq<ScanGroup>)
    ensures |groups| == Count(GroupMask(file))
    ensures forall j :: 0 <= j < |groups| ==> file[Positions(GroupMask(file))[j]].node.Group?
    ensures forall j :: 0 <= j < |groups| ==> groups[j] == AsScanGroup(file[Positions(GroupMask(file))[j]])
  {
    var p := Positions(GroupMask(file));
    seq(|p|, j requires 0 <= j < |p| => AsScanGroup(file[p[j]]))
  }

  /** No group of the top group is missed. */
  lemma ScanGroupsComplete(file: seq<Link>, k: nat)
    requires k < |file| && file[k].node.Group?
    ensures AsScanGroup(file[k]) in ScanGroups(file)
  {
    var p := Positions(GroupMask(file));
    assert GroupMask(file)[k];
    PositionsComplete(GroupMask(file), k);
    var j :| 0 <= j < |p| && p[j] == k;
    assert ScanGroups(file)[j] == AsScanGroup(file[k]);
  }

  /** A scan group's name: its path without the leading slashes. */
  function GroupName(g: ScanGroup): string
  {
    LStrip(g.path, IsSlash)
  }

  function ScanGroupNames(groups: seq<ScanGroup>): (names: seq<string>)
    ensures |names| == |groups|
    ensures forall j :: 0 <= j < |groups| ==> names[j] == GroupName(groups[j])
  {
    seq(|groups|, j requires 0 <= j < |groups| => GroupName(groups[j]))
  }

  lemma StripSlashPrefix(name: string)
    requires |name| == 0 || name[0] != '/'
    ensures LStrip("/" + name, IsSlash) == name
  {
    assert ("/" + name)[1..] == name;
  }

  /** HDF5 link names never contain a slash, so a scan group's name is the
      name of its link in the top group. */
  lemma ScanGroupNamesAreLinkNames(file: seq<Link>)
    requires forall k :: 0 <= k < |file| ==> '/' !in file[k].name
    ensures forall j :: 0 <= j < |ScanGroups(file)| ==>
      ScanGroupNames(ScanGroups(file))[j] == file[Positions(GroupMask(file))[j]].name
  {
    var groups := ScanGroups(file);
    forall j | 0 <= j < |groups|
      ensures ScanGroupNames(groups)[j] == file[Positions(GroupMask(file))[j]].name
    {
      var k := Positions(GroupMask(file))[j];
      var name := file[k].name;
      assert |name| == 0 || name[0] != '/' by {
        if |name| > 0 {
          assert name[0] in name;
        }
      }
      StripSlashPrefix(name);
    }
  }

  /** The node a group links under `name`, if any. */
  function Child(links: seq<Link>, name: string): (r: Option<Node>)
    ensures r.None? <==> forall i :: 0 <= i < |links| ==> links[i].name != name
    ensures r.Some? ==> exists i :: 0 <= i < |links| && links[i] == Link(name, r.value) && NoneNamed(links, name, i)
  {
    if |links| == 0 then None
    else if links[0].name == name then Some(links[0].node)
    else
      var r := Child(links[1..], name);
      assert forall i :: 1 <= i < |links| ==> links[1..][i - 1] == links[i];
      assert r.Some? ==> exists i :: 0 <= i < |links| && links[i] == Link(name, r.value) && NoneNamed(links, name, i) by {
        if r.Some? {
          var i :| 0 <= i < |links[1..]| && links[1..][i] == Link(name, r.value) && NoneNamed(links[1..], name, i);
          assert links[i + 1] == Link(name, r.value) && NoneNamed(links, name, i + 1);
        }
      }
      r
  }

  /** No link before position `i` has the name. */
  predicate NoneNamed(links: seq<Link>, name: string, i: nat)
    requires i <= |links|
  {
    forall j :: 0 <= j < i ==> links[j].name != name
  }

  /** `"EBSD/Data" in group and "EBSD/Header" in group`: the group's first
      link named EBSD is a group, which links both a Data and a Header. */
  function HasEbsdData(g: ScanGroup): (r: bool)
    ensures r <==> exists i :: 0 <= i < |g.links| && EbsdDataAt(g.links, i)
  {
    var c := Child(g.links, "EBSD");
    var r := match c
      case Some(Group(ebsd)) => Child(ebsd, "Data").Some? && Child(ebsd, "Header").Some?
      case _ => false;
    assert r <==> exists i :: 0 <= i < |g.links| && EbsdDataAt(g.links, i) by {
      if c.Some? {
        var i0 :| 0 <= i0 < |g.links| && g.links[i0] == Link("EBSD", c.value) && NoneNamed(g.links, "EBSD", i0);
        assert forall i :: 0 <= i < |g.links| && EbsdDataAt(g.links, i) ==> i == i0;
        if c.value.Group? {
          assert Child(c.value.links, "Data").Some? <==> Links(c.value.links, "Data");
          assert Child(c.value.links, "Header").Some? <==> Links(c.value.links, "Header");
          if r {
            assert EbsdDataAt(g.links, i0);
          }
        }
      }
    }
    r
  }

  /** Link i is the first one named EBSD, and is a group linking both a
      Data and a Header. */
  predicate EbsdDataAt(links: seq<Link>, i: nat)
    requires i < |links|
  {
    && links[i].name == "EBSD" && NoneNamed(links, "EBSD", i)
    && links[i].node.Group? && Links(links[i].node.links, "Data") && Links(links[i].node.links, "Header")
  }

  /** Some link has the name. */
  predicate Links(links: seq<Link>, name: string)
  {
    exists j :: 0 <= j < |links| && links[j].name == name
  }

  predicate AnyEbsdData(groups: seq<ScanGroup>)
  {
    exists j :: 0 <= j < |groups| && HasEbsdData(groups[j])
  }

  // ---------------------------------------------------------------------
  // Manufacturer and version

  datatype Header = Header(manufacturer: Option<string>, version: Option<string>)

  predicate IsManufacturerKey(key: string)
  {
    Lower(key) == "manufacturer"
  }

  predicate IsVersionKey(key: string)
  {
    Lower(key) == "version" || Lower(key) == "format version"
  }

  /** The keys whose value is lower-cased: a value that is not a string has
      no `lower` and raises AttributeError. */
  predicate IsHeaderKey(key: string)
  {
    IsManufacturerKey(key) || IsVersionKey(key)
  }

  predicate IsText(item: Item)
  {
    item.Leaf? && item.value.Text?
  }

  /** `e` is the last entry of `d` whose key `isKey` accepts, and `s` is its
      value lower-cased. */
  predicate LastLowered(d: Dict, isKey: string -> bool, s: string)
  {
    exists i ::
      && 0 <= i < |d|
      && isKey(d[i].key)
      && IsText(d[i].item)
      && s == Lower(d[i].item.value.text)
      && (forall j :: i < j < |d| ==> !isKey(d[j].key))
  }

  /** An entry appended after the last match leaves it the last match. */
  lemma LastLoweredKept(d: Dict, isKey: string -> bool, s: string)
    requires |d| > 0 && !isKey(d[|d| - 1].key)
    requires LastLowered(d[..|d| - 1], isKey, s)
    ensures LastLowered(d, isKey, s)
  {
    var prefix := d[..|d| - 1];
    var i :| 0 <= i < |prefix| && isKey(prefix[i].key) && IsText(prefix[i].item)
      && s == Lower(prefix[i].item.value.text)
      && (forall j :: i < j < |prefix| ==> !isKey(prefix[j].key));
    assert d[i] == prefix[i];
    assert forall j :: i < j < |d| - 1 ==> d[j] == prefix[j];
  }

  /** A matching entry appended last is the last match. */
  lemma LastLoweredNew(d: Dict, isKey: string -> bool)
    requires |d| > 0 && isKey(d[|d| - 1].key) && IsText(d[|d| - 1].item)
    ensures LastLowered(d, isKey, Lower(d[|d| - 1].item.value.text))
  {
  }

  /** A header entry whose value has no `lower`. */
  predicate Unreadable(e: Entry)
  {
    IsHeaderKey(e.key) && !IsText(e.item)
  }

  predicate AnyUnreadable(d: Dict)
  {
    exists i :: 0 <= i < |d| && Unreadable(d[i])
  }

  predicate NoKey(d: Dict, isKey: string -> bool)
  {
    forall i :: 0 <= i < |d| ==> !isKey(d[i].key)
  }

  lemma UnreadableExtends(d: Dict)
    requires |d| > 0
    ensures AnyUnreadable(d) <==> AnyUnreadable(d[..|d| - 1]) || Unreadable(d[|d| - 1])
  {
    var init := d[..|d| - 1];
    assert forall i :: 0 <= i < |init| ==> init[i] == d[i];
  }

  lemma NoKeyExtends(d: Dict, isKey: string -> bool)
    requires |d| > 0
    ensures NoKey(d, isKey) <==> NoKey(d[..|d| - 1], isKey) && !isKey(d[|d| - 1].key)
  {
    var init := d[..|d| - 1];
    assert forall i :: 0 <= i < |init| ==> init[i] == d[i];
  }

  /** The value one more entry gives a key that `isKey` accepts: the entry's
      own lower-cased text if it matches, the earlier value otherwise. */
  lemma LastLoweredStep(d: Dict, isKey: string -> bool, earlier: Option<string>)
    requires |d| > 0 && (isKey(d[|d| - 1].key) ==> IsText(d[|d| - 1].item))
    requires earlier.Some? ==> LastLowered(d[..|d| - 1], isKey, earlier.value)
    ensures var now := if isKey(d[|d| - 1].key) then Some(Lower(d[|d| - 1].item.value.text)) else earlier;
      now.Some? ==> LastLowered(d, isKey, now.value)
  {
    if isKey(d[|d| - 1].key) {
      LastLoweredNew(d, isKey);
    } else if earlier.Some? {
      LastLoweredKept(d, isKey, earlier.value);
    }
  }

  /** The loop of `get_manufacturer_version` over the top group's
      dictionary: the last manufacturer key and the last version key win,
      their values lower-cased; a header key holding a non-string raises. */
  function ReadHeader(d: Dict): (r: Result<Header, ReaderError>)
    ensures r.Err? <==> exists i :: 0 <= i < |d| && Unreadable(d[i])
    ensures r.Err? ==> r.error == AttributeError
    ensures r.Ok? ==> (r.value.manufacturer.None? <==> forall i :: 0 <= i < |d| ==> !IsManufacturerKey(d[i].key))
    ensures r.Ok? ==> (r.value.version.None? <==> forall i :: 0 <= i < |d| ==> !IsVersionKey(d[i].key))
    ensures r.Ok? && r.value.manufacturer.Some? ==> LastLowered(d, IsManufacturerKey, r.value.manufacturer.value)
    ensures r.Ok? && r.value.version.Some? ==> LastLowered(d, IsVersionKey, r.value.version.value)
  {
    if |d| == 0 then Ok(Header(None, None))
    else
      var e := d[|d| - 1];
      UnreadableExtends(d);
      match ReadHeader(d[..|d| - 1])
      case Err(err) => Err(err)
      case Ok(h) =>
        if Unreadable(e) then Err(AttributeError)
        else
          NoKeyExtends(d, IsManufacturerKey);
          NoKeyExtends(d, IsVersionKey);
          LastLoweredStep(d, IsManufacturerKey, h.manufacturer);
          LastLoweredStep(d, IsVersionKey, h.version);
          var manufacturer := if IsManufacturerKey(e.key) then Some(Lower(e.item.value.text)) else h.manufacturer;
          var version := if IsVersionKey(e.key) then Some(Lower(e.item.value.text)) else h.version;
          Ok(Header(manufacturer, version))
  }

  /** The key a top-group link is read under when nothing is skipped: a
      dataset's prepared key, or a subgroup's name. */
  function TopKey(link: Link): (key: string)
    ensures KeyOf(link, false, []) == Some(key)
  {
    match link.node
    case Dataset(v) => ReadDataset(link.name, v).0
    case Group(_) => link.name
  }

  /** `get_manufacturer_version`: the header read from the top group's
      datasets, without recursing into groups. Any failure is the
      AttributeError of a non-string header value; otherwise the
      manufacturer (version) is absent exactly when no top-level link is
      read under a manufacturer (version) key. */
  function ManufacturerVersion(file: seq<Link>): (r: Result<Header, ReaderError>)
    ensures r.Err? ==> r.error == AttributeError
    ensures r.Ok? ==> (r.value.manufacturer.None? <==> forall i :: 0 <= i < |file| ==> !IsManufacturerKey(TopKey(file[i])))
    ensures r.Ok? ==> (r.value.version.None? <==> forall i :: 0 <= i < |file| ==> !IsVersionKey(TopKey(file[i])))
  {
    var d := GroupToDict(file, [], false, []);
    NoKeyInFile(file, IsManufacturerKey);
    NoKeyInFile(file, IsVersionKey);
    ReadHeader(d)
  }

  /** No entry of the top group's dictionary has a key `isKey` accepts iff
      no top-level link is read under such a key. */
  lemma NoKeyInFile(file: seq<Link>, isKey: string -> bool)
    ensures NoKey(GroupToDict(file, [], false, []), isKey) <==> forall i :: 0 <= i < |file| ==> !isKey(TopKey(file[i]))
  {
    var d := GroupToDict(file, [], false, []);
    if NoKey(d, isKey) {
      forall i | 0 <= i < |file|
        ensures !isKey(TopKey(file[i]))
      {
        assert HasKey(d, TopKey(file[i]));
      }
    } else {
      var j :| 0 <= j < |d| && isKey(d[j].key);
      assert HasKey(d, d[j].key);
      var i :| 0 <= i < |file| && KeyOf(file[i], false, []) == Some(d[j].key);
      assert isKey(TopKey(file[i]));
    }
  }

  /** A read manufacturer or version is already lower case. */
  lemma HeaderIsLowerCase(file: seq<Link>)
    requires ManufacturerVersion(file).Ok?
    ensures var h := ManufacturerVersion(file).value;
      && (h.manufacturer.Some? ==> Lower(h.manufacturer.value) == h.manufacturer.value)
      && (h.version.Some? ==> Lower(h.version.value) == h.version.value)
  {
    var d := GroupToDict(file, [], false, []);
    var h := ManufacturerVersion(file).value;
    if h.manufacturer.Some? {
      LastLoweredIsLower(d, IsManufacturerKey, h.manufacturer.value);
    }
    if h.version.Some? {
      LastLoweredIsLower(d, IsVersionKey, h.version.value);
    }
  }

  /** A lower-cased value is left alone by lower-casing it again. */
  lemma LastLoweredIsLower(d: Dict, isKey: string -> bool, s: string)
    requires LastLowered(d, isKey, s)
    ensures Lower(s) == s
  {
    var i :| 0 <= i < |d| && isKey(d[i].key) && IsText(d[i].item)
      && s == Lower(d[i].item.value.text)
      && (forall j :: i < j < |d| ==> !isKey(d[j].key));
    LowerIdempotent(d[i].item.value.text);
  }

  // ---------------------------------------------------------------------
  // Checking the file

  /** `check_file` as written: the reasons found later override the earlier
      ones, but `man.lower()` is called on the manufacturer whether or not
      it was found, so a file without one raises AttributeError. */
  function CheckFileAsWritten(file: seq<Link>): (r: Result<(), ReaderError>)
    ensures ManufacturerVersion(file).Ok? && ManufacturerVersion(file).value.manufacturer.None? ==> r == Err(AttributeError)
  {
    match ManufacturerVersion(file)
    case Err(e) => Err(e)
    case Ok(h) =>
      var error1 := if h.manufacturer.None? || h.version.None? then Some(HeaderUnreadable) else None;
      var error2 := if !AnyEbsdData(ScanGroups(file)) then Some(NoEbsdScanGroup) else error1;
      if h.manufacturer.None? then Err(AttributeError)
      else
        var man := Lower(h.manufacturer.value);
        var error3 := if man !in ManufacturerPatterns then Some(UnsupportedManufacturer(man)) else error2;
        if error3.Some? then Err(IOError(error3.value)) else Ok(())
  }

  /** `check_file` as its documentation promises: a readable file is
      accepted exactly when it names a manufacturer and a version, has a
      scan group with EBSD data and a supported manufacturer; otherwise
      an IOError gives the last reason found. */
  function CheckFile(file: seq<Link>): (r: Result<(), ReaderError>)
    ensures ManufacturerVersion(file).Err? ==> r == Err(ManufacturerVersion(file).error)
    ensures ManufacturerVersion(file).Ok? ==>
      var h := ManufacturerVersion(file).value;
      && (r.Ok? <==>
            && h.manufacturer.Some?
            && h.version.Some?
            && AnyEbsdData(ScanGroups(file))
            && Lower(h.manufacturer.value) in ManufacturerPatterns)
      && (r.Err? ==> r.error.IOError?)
      && (h.manufacturer.Some? && Lower(h.manufacturer.value) !in ManufacturerPatterns ==>
            r == Err(IOError(UnsupportedManufacturer(Lower(h.manufacturer.value)))))
      && ((h.manufacturer.None? || Lower(h.manufacturer.value) in ManufacturerPatterns) && !AnyEbsdData(ScanGroups(file)) ==>
            r == Err(IOError(NoEbsdScanGroup)))
      && ((h.manufacturer.None? || h.version.None?) && AnyEbsdData(ScanGroups(file))
          && (h.manufacturer.None? || Lower(h.manufacturer.value) in ManufacturerPatterns) ==>
            r == Err(IOError(HeaderUnreadable)))
  {
    match ManufacturerVersion(file)
    case Err(e) => Err(e)
    case Ok(h) =>
      var error1 := if h.manufacturer.None? || h.version.None? then Some(HeaderUnreadable) else None;
      var error2 := if !AnyEbsdData(ScanGroups(file)) then Some(NoEbsdScanGroup) else error1;
      var error3 :=
        if h.manufacturer.Some? && Lower(h.manufacturer.value) !in ManufacturerPatterns
        then Some(UnsupportedManufacturer(Lower(h.manufacturer.value)))
        else error2;
      if error3.Some? then Err(IOError(error3.value)) else Ok(())
  }

  /** The two agree on every file that names a manufacturer. */
  lemma CheckFileAgreesWithManufacturer(file: seq<Link>)
    requires ManufacturerVersion(file).Ok? ==> ManufacturerVersion(file).value.manufacturer.Some?
    ensures CheckFileAsWritten(file) == CheckFile(file)
  {
  }

  /** A file with a scan group holding EBSD data and a version, but no
      manufacturer. */
  function NoManufacturerFile(): seq<Link>
  {
    var ebsd := Link("EBSD", Group([Link("Data", Group([])), Link("Header", Group([]))]));
    [Link("Scan 1", Group([ebsd])), Link("Version", Dataset(Text("4.0")))]
  }

  /** Reading a group link and then a string dataset under a different
      name gives the two entries in that order. */
  lemma DictOfScanAndVersion(scan: Link, version: string, text: string)
    requires scan.node.Group? && scan.name != version
    ensures GroupToDict([scan, Link(version, Dataset(Text(text)))], [], false, [])
         == [Entry(scan.name, GroupHandle(scan.node.links)), Entry(version, Leaf(Text(text)))]
  {
    GroupToDictOfTwo(scan, Link(version, Dataset(Text(text))), []);
    AddUnlistedGroup([], scan);
    SecondEntry(Entry(scan.name, GroupHandle(scan.node.links)), version, text);
  }

  lemma SecondEntry(first: Entry, version: string, text: string)
    requires first.key != version
    ensures AddLink([first], Link(version, Dataset(Text(text))), false, []) == [first, Entry(version, Leaf(Text(text)))]
  {
    AddUnlistedDataset([first], version, Text(text));
  }

  /** A non-header entry followed by a version entry: a version, no
      manufacturer. */
  lemma HeaderOfOtherAndVersion(other: Entry, version: Entry)
    requires !IsHeaderKey(other.key)
    requires IsVersionKey(version.key) && IsText(version.item)
    ensures ReadHeader([other, version]) == Ok(Header(None, Some(Lower(version.item.value.text))))
  {
    assert [other, version][..1] == [other];
    assert [other][..0] == [];
    assert ReadHeader([other]) == Ok(Header(None, None));
  }

  /** Any file made of a scan group and a version dataset has a version
      but no manufacturer. */
  lemma HeaderOfScanAndVersion(scan: Link, version: string, text: string)
    requires scan.node.Group? && !IsHeaderKey(scan.name)
    requires IsVersionKey(version) && scan.name != version
    ensures ManufacturerVersion([scan, Link(version, Dataset(Text(text)))]) == Ok(Header(None, Some(Lower(text))))
  {
    DictOfScanAndVersion(scan, version, text);
    HeaderOfOtherAndVersion(Entry(scan.name, GroupHandle(scan.node.links)), Entry(version, Leaf(Text(text))));
  }

  lemma NoManufacturerFileHasEbsdData()
    ensures AnyEbsdData(ScanGroups(NoManufacturerFile()))
  {
    var file := NoManufacturerFile();
    ScanGroupsComplete(file, 0);
    var g := AsScanGroup(file[0]);
    var ebsd := g.links[0];
    assert Child(g.links, "EBSD") == Some(ebsd.node);
    assert Child(ebsd.node.links, "Data").Some?;
    assert Child(ebsd.node.links, "Header").Some? by {
      assert "Data" != "Header" by {
        assert "Data"[0] != "Header"[0];
      }
    }
    assert HasEbsdData(g);
    var j :| 0 <= j < |ScanGroups(file)| && ScanGroups(file)[j] == g;
  }

  /** As written `check_file` raises AttributeError on this file, where an
      IOError saying the header could not be read is meant. */
  lemma MissingManufacturerCounterexample()
    ensures CheckFileAsWritten(NoManufacturerFile()) == Err(AttributeError)
    ensures CheckFile(NoManufacturerFile()) == Err(IOError(HeaderUnreadable))
  {
    NoManufacturerFileHeader();
    NoManufacturerFileHasEbsdData();
  }

  /** The file's header names a version and no manufacturer. */
  lemma NoManufacturerFileHeader()
    ensures ManufacturerVersion(NoManufacturerFile()).Ok?
    ensures ManufacturerVersion(NoManufacturerFile()).value.manufacturer.None?
    ensures ManufacturerVersion(NoManufacturerFile()).value.version.Some?
  {
    var file := NoManufacturerFile();
    assert !IsHeaderKey("Scan 1") by {
      assert Lower("Scan 1")[0] == 's';
    }
    assert IsVersionKey("Version") by {
      assert Lower("Version") == "version";
    }
    assert "Scan 1" != "Version" by {
      assert "Scan 1"[0] != "Version"[0];
    }
    HeaderOfScanAndVersion(file[0], "Version", "4.0");
    assert file == [file[0], Link("Version", Dataset(Text("4.0")))];
  }

  // ---------------------------------------------------------------------
  // Opening a reader

  /** What the constructor keeps of an accepted file. */
  datatype Reader = Reader(scanGroups: seq<ScanGroup>, manufacturer: string, version: string, patternsName: string)

  /** The constructor: scan groups, then manufacturer and version, then the
      file check, then the name of the patterns dataset. The lookup of that
      name cannot fail once the check has passed. */
  function OpenReader(file: seq<Link>): (r: Result<Reader, ReaderError>)
    ensures r.Ok? <==> CheckFile(file).Ok?
    ensures r.Err? ==> r.error == CheckFile(file).error
    ensures r.Ok? ==> r.value.scanGroups == ScanGroups(file) && AnyEbsdData(r.value.scanGroups)
    ensures r.Ok? ==> ManufacturerVersion(file) == Ok(Header(Some(r.value.manufacturer), Some(r.value.version)))
    ensures r.Ok? ==>
      && r.value.manufacturer in ManufacturerPatterns
      && r.value.patternsName == ManufacturerPatterns[r.value.manufacturer]
  {
    var groups := ScanGroups(file);
    match ManufacturerVersion(file)
    case Err(e) => Err(e)
    case Ok(h) =>
      match CheckFile(file)
      case Err(e) => Err(e)
      case Ok(_) =>
        HeaderIsLowerCase(file);
        var man := h.manufacturer.value;
        Ok(Reader(groups, man, h.version.value, ManufacturerPatterns[man]))
  }

  /** The constructor runs the check as written: it opens exactly the files
      that check accepts, and fails with the same error on every file that
      names a manufacturer. */
  lemma OpenReaderAsWritten(file: seq<Link>)
    ensures OpenReader(file).Ok? <==> CheckFileAsWritten(file).Ok?
    ensures OpenReader(file).Err? && !(ManufacturerVersion(file).Ok? && ManufacturerVersion(file).value.manufacturer.None?) ==>
      OpenReader(file).error == CheckFileAsWritten(file).error
  {
  }

  // ---------------------------------------------------------------------
  // Choosing scan groups

  /** `group_names`: none (the first scan group), one name, or a list. */
  datatype Request = FirstScan | Single(name: string) | Several(names: seq<string>)

  /** The chosen groups, and one warning naming each requested group that
      is missing. */
  datatype Selection = Selection(groups: seq<ScanGroup>, warnings: seq<string>)

  function Desired(request: Request): seq<string>
    requires !request.FirstScan?
  {
    if request.Single? then [request.name] else request.names
  }

  /** The first position of `x` in `xs`. */
  function IndexOf(xs: seq<string>, x: string): (r: Option<nat>)
    ensures r.None? <==> x !in xs
    ensures r.Some? ==> r.value < |xs| && xs[r.value] == x
    ensures r.Some? ==> forall j :: 0 <= j < r.value ==> xs[j] != x
  {
    if |xs| == 0 then None
    else if xs[0] == x then Some(0)
    else
      var r := IndexOf(xs[1..], x);
      assert forall j :: 1 <= j < |xs| ==> xs[1..][j - 1] == xs[j];
      assert x in xs[1..] ==> x in xs;
      if r.Some? then Some(r.value + 1) else None
  }

  /** The first scan group called `name`, as the inner loop of
      `get_desired_scan_groups` finds it. */
  function FirstMatch(groups: seq<ScanGroup>, name: string): (r: Option<nat>)
    ensures r.None? <==> forall j :: 0 <= j < |groups| ==> GroupName(groups[j]) != name
    ensures r.Some? ==> r.value < |groups| && GroupName(groups[r.value]) == name
    ensures r.Some? ==> forall j :: 0 <= j < r.value ==> GroupName(groups[j]) != name
  {
    var names := ScanGroupNames(groups);
    var r := IndexOf(names, name);
    assert r.None? ==> forall j :: 0 <= j < |groups| ==> GroupName(groups[j]) != name by {
      if r.None? {
        forall j | 0 <= j < |groups|
          ensures GroupName(groups[j]) != name
        {
          assert names[j] in names;
        }
      }
    }
    r
  }

  /** For each of the first i requested names in order, the first group
      of that name. */
  function Found(groups: seq<ScanGroup>, names: seq<string>, i: nat): seq<ScanGroup>
    requires i <= |names|
  {
    if i == 0 then []
    else
      var front := Found(groups, names, i - 1);
      match FirstMatch(groups, names[i - 1])
      case Some(j) => front + [groups[j]]
      case None => front
  }

  /** Those of the first i requested names no group is called, in order. */
  function NotFound(groups: seq<ScanGroup>, names: seq<string>, i: nat): seq<string>
    requires i <= |names|
  {
    if i == 0 then []
    else
      var front := NotFound(groups, names, i - 1);
      match FirstMatch(groups, names[i - 1])
      case Some(_) => front
      case None => front + [names[i - 1]]
  }

  /** Every requested name is either found or warned about, once. */
  lemma {:induction false} FoundOrWarnedCount(groups: seq<ScanGroup>, names: seq<string>, i: nat)
    requires i <= |names|
    ensures |Found(groups, names, i)| + |NotFound(groups, names, i)| == i
  {
    if i > 0 {
      FoundOrWarnedCount(groups, names, i - 1);
    }
  }

  /** Only requested groups are returned. */
  lemma {:induction false} FoundWereRequested(groups: seq<ScanGroup>, names: seq<string>, i: nat)
    requires i <= |names|
    ensures forall g :: g in Found(groups, names, i) ==>
      g in groups && exists k :: 0 <= k < i && GroupName(g) == names[k]
  {
    if i > 0 {
      FoundWereRequested(groups, names, i - 1);
      var m := FirstMatch(groups, names[i - 1]);
      if m.Some? {
        assert Found(groups, names, i) == Found(groups, names, i - 1) + [groups[m.value]];
        assert GroupName(groups[m.value]) == names[i - 1];
      }
    }
  }

  /** The warnings name exactly the requested names no group is called. */
  lemma {:induction false} WarnedAreMissing(groups: seq<ScanGroup>, names: seq<string>, i: nat)
    requires i <= |names|
    ensures forall n :: n in NotFound(groups, names, i) <==>
      (exists k :: 0 <= k < i && names[k] == n) && forall j :: 0 <= j < |groups| ==> GroupName(groups[j]) != n
  {
    if i > 0 {
      WarnedAreMissing(groups, names, i - 1);
    }
  }

  /** The inner loop of `get_desired_scan_groups`: walk the scan group
      names until one equals `desired`. */
  method FindScan(names: seq<string>, desired: string) returns (found: Option<nat>)
    ensures found == IndexOf(names, desired)
  {
    var k := 0;
    while k < |names|
      invariant 0 <= k <= |names|
      invariant forall j :: 0 <= j < k ==> names[j] != desired
    {
      if desired == names[k] {
        return Some(k);
      }
      k := k + 1;
    }
    return None;
  }

  /** The inner loop run over the scan groups' names. */
  method FindGroup(groups: seq<ScanGroup>, name: string) returns (found: Option<nat>)
    ensures found == FirstMatch(groups, name)
  {
    found := FindScan(ScanGroupNames(groups), name);
  }

  /** `get_desired_scan_groups`: with no names, the first scan group (an
      IndexError if there is none); otherwise for each name the first group
      so called, a missing name being an IOError when it is the only one
      asked for and a warning otherwise. */
  method GetDesiredScanGroups(groups: seq<ScanGroup>, request: Request) returns (r: Result<Selection, ReaderError>)
    ensures request.FirstScan? && |groups| == 0 ==> r == Err(IndexError)
    ensures request.FirstScan? && |groups| > 0 ==> r == Ok(Selection([groups[0]], []))
    ensures !request.FirstScan? && |Desired(request)| == 1 && FirstMatch(groups, Desired(request)[0]).None? ==>
      r == Err(IOError(ScanNotFound(Desired(request)[0])))
    ensures !request.FirstScan? && !(|Desired(request)| == 1 && FirstMatch(groups, Desired(request)[0]).None?) ==>
      r == Ok(Selection(Found(groups, Desired(request), |Desired(request)|), NotFound(groups, Desired(request), |Desired(request)|)))
  {
    if request.FirstScan? {
      if |groups| == 0 {
        return Err(IndexError);
      }
      return Ok(Selection([groups[0]], []));
    }
    r := SelectNamed(groups, Desired(request));
  }

  /** The loop over the requested names. */
  method SelectNamed(groups: seq<ScanGroup>, names: seq<string>) returns (r: Result<Selection, ReaderError>)
    ensures |names| == 1 && FirstMatch(groups, names[0]).None? ==> r == Err(IOError(ScanNotFound(names[0])))
    ensures !(|names| == 1 && FirstMatch(groups, names[0]).None?) ==>
      r == Ok(Selection(Found(groups, names, |names|), NotFound(groups, names, |names|)))
  {
    var chosen: seq<ScanGroup> := [];
    var warnings: seq<string> := [];
    var i := 0;
    while i < |names|
      invariant 0 <= i <= |names|
      invariant chosen == Found(groups, names, i)
      invariant warnings == NotFound(groups, names, i)
      invariant |names| == 1 && i == 1 ==> FirstMatch(groups, names[0]).Some?
    {
      var found := FindGroup(groups, names[i]);
      assert Found(groups, names, i + 1) == chosen + (if found.Some? then [groups[found.value]] else []);
      assert NotFound(groups, names, i + 1) == warnings + (if found.None? then [names[i]] else []);
      if found.Some? {
        chosen := chosen + [groups[found.value]];
      } else {
        if |names| == 1 {
          return Err(IOError(ScanNotFound(names[i])));
        }
        warnings := warnings + [names[i]];
      }
      i := i + 1;
    }
    return Ok(Selection(chosen, warnings));
  }
}
