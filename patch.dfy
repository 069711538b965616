/**
 * The hot-update patch tool: the resource records of a version directory, the
 * choice of the latest version, and the difference lists that tell a client on
 * version i which resources to fetch to reach the latest one.  Directory
 * listings, the resource lists of the version directories and the difference
 * files already on disk are inputs; hashing, JSON and file writes are outside
 * the model.
 */
module Patch {
  import opened Wrappers
  import opened Decimal

  // ---------------------------------------------------------------- resources

  /** One file of a version directory as the resource list records it. */
  datatype Resource = Resource(name: string, path: string, size: int, md5: string)

  /** A file found in a version directory: its name, its joined path, its size and its MD5 digest. */
  datatype FileInfo = FileInfo(name: string, path: string, size: int, md5: string)

  /** A path with every backslash turned into a slash. */
  function Normalise(path: string): (r: string)
    ensures |r| == |path|
    ensures forall i :: 0 <= i < |path| ==> r[i] == if path[i] == '\\' then '/' else path[i]
  {
    if |path| == 0 then "" else [if path[0] == '\\' then '/' else path[0]] + Normalise(path[1..])
  }

  /** A resource record; its path is stored with forward slashes only. */
  function NewResource(name: string, path: string, size: int, md5: string): (r: Resource)
    ensures r.name == name && r.size == size && r.md5 == md5 && r.path == Normalise(path)
  {
    Resource(name, Normalise(path), size, md5)
  }

  /** A stored path holds no backslash, and normalising it again changes nothing. */
  lemma NormalisedPath(name: string, path: string, size: int, md5: string)
    ensures '\\' !in NewResource(name, path, size, md5).path
    ensures Normalise(NewResource(name, path, size, md5).path) == NewResource(name, path, size, md5).path
  {
    var p := Normalise(path);
    assert forall i :: 0 <= i < |p| ==> p[i] != '\\';
  }

  predicate EndsWith(s: string, suffix: string)
  {
    |suffix| <= |s| && s[|s| - |suffix|..] == suffix
  }

  /** The files a resource list never records. */
  predicate Excluded(name: string)
  {
    EndsWith(name, ".json") || EndsWith(name, ".exe") || EndsWith(name, ".DS_store") || EndsWith(name, ".DS_Store")
  }

  function Record(f: FileInfo): Resource
  {
    NewResource(f.name, f.path, f.size, f.md5)
  }

  /** The resource list of a directory whose files, in walk order, are files. */
  function ResList(files: seq<FileInfo>): seq<Resource>
  {
    if |files| == 0 then []
    else
      var f := files[|files| - 1];
      ResList(files[..|files| - 1]) + (if Excluded(f.name) then [] else [Record(f)])
  }

  /** A resource is listed exactly when it records a file that is not excluded. */
  lemma {:induction false} ResListMembers(files: seq<FileInfo>, r: Resource)
    ensures r in ResList(files) <==> exists k :: 0 <= k < |files| && !Excluded(files[k].name) && r == Record(files[k])
  {
    if |files| > 0 {
      var init := files[..|files| - 1];
      ResListMembers(init, r);
      if r in ResList(files) && r !in ResList(init) {
        assert r == Record(files[|files| - 1]);
      }
      if exists k :: 0 <= k < |files| && !Excluded(files[k].name) && r == Record(files[k]) {
        var k :| 0 <= k < |files| && !Excluded(files[k].name) && r == Record(files[k]);
        if k < |files| - 1 {
          assert init[k] == files[k];
        }
      }
    }
  }

  /** No listed resource has an excluded name. */
  lemma ResListExcludes(files: seq<FileInfo>)
    ensures forall r :: r in ResList(files) ==> !Excluded(r.name)
  {
    forall r | r in ResList(files)
      ensures !Excluded(r.name)
    {
      ResListMembers(files, r);
    }
  }

  /** Records every file of a version directory except the excluded ones. */
  method GenResList(files: seq<FileInfo>) returns (list: seq<Resource>)
    ensures list == ResList(files)
  {
    list := [];
    for k := 0 to |files|
      invariant list == ResList(files[..k])
    {
      assert files[..k + 1][..k] == files[..k];
      if !Excluded(files[k].name) {
        list := list + [NewResource(files[k].name, files[k].path, files[k].size, files[k].md5)];
      }
    }
    assert files[..|files|] == files;
  }

  // ---------------------------------------------------------------- latest version

  /** The latest version among the first n directory names: the first digit name of maximal value, or "0". */
  function LatestIn(names: seq<string>, n: nat): (r: string)
    requires n <= |names|
    ensures IsDigits(r)
  {
    if n == 0 then "0"
    else
      var prev := LatestIn(names, n - 1);
      var f := names[n - 1];
      if IsDigits(f) && DigitsValue(f) > DigitsValue(prev) then f else prev
  }

  /** The latest version among the directory names. */
  function LatestOf(names: seq<string>): string
  {
    LatestIn(names, |names|)
  }

  /** The value of "0". */
  lemma ZeroValue()
    ensures DigitsValue("0") == 0
  {
    assert ValueIn("0", 1) == ValueIn("0", 0) * 10 + ("0"[0] - '0') as nat;
  }

  /** No digit name among the first n has a larger value than their latest version. */
  lemma {:induction false} MaximalIn(names: seq<string>, n: nat)
    requires n <= |names|
    ensures forall k :: 0 <= k < n && IsDigits(names[k]) ==> DigitsValue(names[k]) <= DigitsValue(LatestIn(names, n))
  {
    if n > 0 {
      MaximalIn(names, n - 1);
    }
  }

  /** No digit name has a larger value than the latest version. */
  lemma LatestIsMaximal(names: seq<string>)
    ensures forall k :: 0 <= k < |names| && IsDigits(names[k]) ==> DigitsValue(names[k]) <= DigitsValue(LatestOf(names))
  {
    MaximalIn(names, |names|);
  }

  /** The latest version of the first n names is "0" or the first of them with its positive value, which no earlier digit name reaches. */
  lemma {:induction false} FirstIn(names: seq<string>, n: nat)
    requires n <= |names|
    ensures var r := LatestIn(names, n);
            r == "0" ||
            (DigitsValue(r) > 0 &&
             exists k :: 0 <= k < n && names[k] == r &&
               forall j :: 0 <= j < k && IsDigits(names[j]) ==> DigitsValue(names[j]) < DigitsValue(r))
  {
    ZeroValue();
    if n > 0 {
      FirstIn(names, n - 1);
      var prev := LatestIn(names, n - 1);
      var f := names[n - 1];
      if IsDigits(f) && DigitsValue(f) > DigitsValue(prev) {
        MaximalIn(names, n - 1);
        assert forall j :: 0 <= j < n - 1 && IsDigits(names[j]) ==> DigitsValue(names[j]) < DigitsValue(f);
      } else if prev != "0" {
        var k :| 0 <= k < n - 1 && names[k] == prev &&
          forall j :: 0 <= j < k && IsDigits(names[j]) ==> DigitsValue(names[j]) < DigitsValue(prev);
        assert LatestIn(names, n) == prev;
      }
    }
  }

  /**
   * The latest version is "0" or a name of the listing with a positive value
   * that no earlier digit name reaches: the first one of maximal value.
   */
  lemma LatestIsFirst(names: seq<string>)
    ensures var r := LatestOf(names);
            r == "0" ||
            (DigitsValue(r) > 0 &&
             exists k :: 0 <= k < |names| && names[k] == r &&
               forall j :: 0 <= j < k && IsDigits(names[j]) ==> DigitsValue(names[j]) < DigitsValue(r))
  {
    FirstIn(names, |names|);
  }

  /** A listing without any digit name has latest version "0". */
  lemma LatestWithoutDigits(names: seq<string>)
    requires forall k :: 0 <= k < |names| ==> !IsDigits(names[k])
    ensures LatestOf(names) == "0"
  {
    LatestIsFirst(names);
  }

  /** The digit names among the first n names of a listing, in order. */
  function DigitsIn(names: seq<string>, n: nat): (r: seq<string>)
    requires n <= |names|
    ensures forall k :: 0 <= k < |r| ==> IsDigits(r[k])
  {
    if n == 0 then []
    else DigitsIn(names, n - 1) + (if IsDigits(names[n - 1]) then [names[n - 1]] else [])
  }

  /** The digit names of a listing, in order. */
  function DigitNames(names: seq<string>): seq<string>
  {
    DigitsIn(names, |names|)
  }

  /** The latest version of the first n names depends only on those n. */
  lemma {:induction false} LatestPrefix(x: seq<string>, y: seq<string>, n: nat)
    requires n <= |x| && n <= |y|
    requires forall k :: 0 <= k < n ==> x[k] == y[k]
    ensures LatestIn(x, n) == LatestIn(y, n)
  {
    if n > 0 {
      LatestPrefix(x, y, n - 1);
    }
  }

  /** Among the first n names, those not all digits never affect the latest version. */
  lemma {:induction false} IgnoresOtherNamesIn(names: seq<string>, n: nat)
    requires n <= |names|
    ensures LatestIn(names, n) == LatestOf(DigitsIn(names, n))
  {
    if n > 0 {
      IgnoresOtherNamesIn(names, n - 1);
      var d := DigitsIn(names, n - 1);
      var f := names[n - 1];
      if IsDigits(f) {
        var e := d + [f];
        assert DigitsIn(names, n) == e;
        LatestPrefix(e, d, |d|);
        assert e[|d|] == f;
        assert LatestIn(e, |e|) == if DigitsValue(f) > DigitsValue(LatestIn(e, |d|)) then f else LatestIn(e, |d|);
      } else {
        assert DigitsIn(names, n) == d;
      }
    }
  }

  /** Names that are not all digits never affect the latest version. */
  lemma LatestIgnoresOtherNames(names: seq<string>)
    ensures LatestOf(names) == LatestOf(DigitNames(names))
  {
    IgnoresOtherNamesIn(names, |names|);
  }

  /** The latest version of a resource folder; a folder that does not exist has version "0". */
  method GetLatestVersion(listing: Option<seq<string>>) returns (latest: string)
    ensures latest == match listing case None => "0" case Some(names) => LatestOf(names)
  {
    latest := "0";
    if listing.Some? {
      var names := listing.value;
      for k := 0 to |names|
        invariant latest == LatestIn(names, k)
      {
        if IsDigits(names[k]) && DigitsValue(names[k]) > DigitsValue(latest) {
          latest := names[k];
        }
      }
    }
  }

  // ---------------------------------------------------------------- merging by name

  /**
   * A name-keyed dictionary of resources, as its items in insertion order:
   * assigning to a present name replaces the value in place, assigning to a
   * new name appends.
   */
  type Dict = seq<Resource>

  /** No name occurs twice. */
  predicate Distinct(d: Dict)
  {
    forall j, k :: 0 <= j < k < |d| ==> d[j].name != d[k].name
  }

  /** The position of the item named name among the first n, or -1. */
  function Find(d: Dict, name: string, n: nat): (r: int)
    requires n <= |d|
    ensures -1 <= r < n
    ensures r >= 0 ==> d[r].name == name
    ensures r < 0 ==> forall k :: 0 <= k < n ==> d[k].name != name
  {
    if n == 0 then -1
    else if d[n - 1].name == name then n - 1
    else Find(d, name, n - 1)
  }

  /** res_dict[r.name] = r. */
  function Put(d: Dict, r: Resource): Dict
  {
    var i := Find(d, r.name, |d|);
    if i >= 0 then d[i := r] else d + [r]
  }

  /** Assigns the first n resources of rs in turn. */
  function Merged(d: Dict, rs: seq<Resource>, n: nat): Dict
    requires n <= |rs|
  {
    if n == 0 then d else Put(Merged(d, rs, n - 1), rs[n - 1])
  }

  /** Assigns every resource of rs in turn. */
  function PutAll(d: Dict, rs: seq<Resource>): Dict
  {
    Merged(d, rs, |rs|)
  }

  /** The names of the first n resources of rs. */
  function Names(rs: seq<Resource>, n: nat): set<string>
    requires n <= |rs|
  {
    set k | 0 <= k < n :: rs[k].name
  }

  function NameSet(rs: seq<Resource>): set<string>
  {
    Names(rs, |rs|)
  }

  lemma NamesStep(rs: seq<Resource>, n: nat)
    requires n < |rs|
    ensures Names(rs, n + 1) == Names(rs, n) + {rs[n].name}
  {
  }

  /** The last of the first n resources of rs named name. */
  function LastBefore(rs: seq<Resource>, n: nat, name: string): Resource
    requires n <= |rs| && name in Names(rs, n)
  {
    if rs[n - 1].name == name then rs[n - 1]
    else
      assert name in Names(rs, n - 1) by {
        NamesStep(rs, n - 1);
      }
      LastBefore(rs, n - 1, name)
  }

  /** The last resource of rs named name. */
  function LastNamed(rs: seq<Resource>, name: string): Resource
    requires name in NameSet(rs)
  {
    LastBefore(rs, |rs|, name)
  }

  /** An assignment keeps the names distinct and adds its name. */
  lemma PutKeeps(d: Dict, r: Resource)
    requires Distinct(d)
    ensures Distinct(Put(d, r))
    ensures NameSet(Put(d, r)) == NameSet(d) + {r.name}
  {
    var e := Put(d, r);
    var i := Find(d, r.name, |d|);
    if i >= 0 {
      assert forall k :: 0 <= k < |d| ==> e[k].name == d[k].name;
    } else {
      assert forall k :: 0 <= k < |d| ==> e[k] == d[k];
      assert e[|d|] == r;
    }
  }

  /** Assignments keep the names distinct, and the dictionary holds every name assigned. */
  lemma {:induction false} MergedKeeps(d: Dict, rs: seq<Resource>, n: nat)
    requires n <= |rs| && Distinct(d)
    ensures Distinct(Merged(d, rs, n))
    ensures NameSet(Merged(d, rs, n)) == NameSet(d) + Names(rs, n)
  {
    if n > 0 {
      MergedKeeps(d, rs, n - 1);
      PutKeeps(Merged(d, rs, n - 1), rs[n - 1]);
      NamesStep(rs, n - 1);
    }
  }

  /** A dictionary with distinct names has one item per name. */
  lemma {:induction false} DistinctSize(d: Dict, n: nat)
    requires n <= |d| && Distinct(d)
    ensures |Names(d, n)| == n
  {
    if n > 0 {
      DistinctSize(d, n - 1);
      NamesStep(d, n - 1);
      assert d[n - 1].name !in Names(d, n - 1);
    }
  }

  /** Merging from empty gives one item per distinct name. */
  lemma MergeSize(rs: seq<Resource>)
    ensures Distinct(PutAll([], rs))
    ensures NameSet(PutAll([], rs)) == NameSet(rs)
    ensures |PutAll([], rs)| == |NameSet(rs)|
  {
    MergedKeeps([], rs, |rs|);
    DistinctSize(PutAll([], rs), |PutAll([], rs)|);
  }

  /** Merging the first n resources from empty keeps, for every name, the last of them assigned under it. */
  lemma {:induction false} MergedKeepsLast(rs: seq<Resource>, n: nat)
    requires n <= |rs|
    ensures forall k :: 0 <= k < |Merged([], rs, n)| ==>
              Merged([], rs, n)[k].name in Names(rs, n) &&
              Merged([], rs, n)[k] == LastBefore(rs, n, Merged([], rs, n)[k].name)
  {
    if n > 0 {
      var r := rs[n - 1];
      MergedKeepsLast(rs, n - 1);
      var before := Merged([], rs, n - 1);
      MergedKeeps([], rs, n - 1);
      NamesStep(rs, n - 1);
      var after := Put(before, r);
      forall k | 0 <= k < |after|
        ensures after[k].name in Names(rs, n) && after[k] == LastBefore(rs, n, after[k].name)
      {
        var i := Find(before, r.name, |before|);
        if after[k].name != r.name {
          assert k < |before| && after[k] == before[k];
        } else if i >= 0 {
          assert k == i;
        }
      }
    }
  }

  /** Merging from empty keeps, for every name, the last resource assigned under it. */
  lemma MergeKeepsLast(rs: seq<Resource>)
    ensures forall k :: 0 <= k < |PutAll([], rs)| ==>
              PutAll([], rs)[k].name in NameSet(rs) && PutAll([], rs)[k] == LastNamed(rs, PutAll([], rs)[k].name)
  {
    MergedKeepsLast(rs, |rs|);
  }

  /** Merging depends only on the resources merged. */
  lemma {:induction false} MergedPrefix(d: Dict, x: seq<Resource>, y: seq<Resource>, n: nat)
    requires n <= |x| && n <= |y|
    requires forall k :: 0 <= k < n ==> x[k] == y[k]
    ensures Merged(d, x, n) == Merged(d, y, n)
  {
    if n > 0 {
      MergedPrefix(d, x, y, n - 1);
    }
  }

  /** Assigning a, then the first k of b, is assigning the first |a|+k of a + b. */
  lemma {:induction false} MergedAppend(d: Dict, a: seq<Resource>, b: seq<Resource>, k: nat)
    requires k <= |b|
    ensures Merged(d, a + b, |a| + k) == Merged(PutAll(d, a), b, k)
  {
    if k == 0 {
      MergedPrefix(d, a + b, a, |a|);
    } else {
      MergedAppend(d, a, b, k - 1);
      assert (a + b)[|a| + k - 1] == b[k - 1];
    }
  }

  /** Assigning a + b is assigning a, then b. */
  lemma PutAllAppend(d: Dict, a: seq<Resource>, b: seq<Resource>)
    ensures PutAll(d, a + b) == PutAll(PutAll(d, a), b)
  {
    MergedAppend(d, a, b, |b|);
  }

  /** Re-merging the first n items of a dictionary from empty rebuilds those items. */
  lemma {:induction false} Rebuilt(d: Dict, n: nat)
    requires n <= |d| && Distinct(d)
    ensures Merged([], d, n) == d[..n]
  {
    if n > 0 {
      Rebuilt(d, n - 1);
      var init := d[..n - 1];
      var i := Find(init, d[n - 1].name, |init|);
      assert forall k :: 0 <= k < n - 1 ==> init[k] == d[k];
      assert init + [d[n - 1]] == d[..n];
    }
  }

  /** Re-merging a dictionary's own items from empty rebuilds it. */
  lemma Rebuild(d: Dict)
    requires Distinct(d)
    ensures PutAll([], d) == d
  {
    Rebuilt(d, |d|);
    assert d[..|d|] == d;
  }

  /** Merges a loaded resource list into the dictionary, one assignment per resource. */
  method Merge(d: Dict, rs: seq<Resource>) returns (e: Dict)
    ensures e == PutAll(d, rs)
  {
    e := d;
    for k := 0 to |rs|
      invariant e == Merged(d, rs, k)
    {
      var i := Find(e, rs[k].name, |e|);
      if i >= 0 {
        e := e[i := rs[k]];
      } else {
        e := e + [rs[k]];
      }
    }
  }

  // ---------------------------------------------------------------- difference files

  datatype PatchError = MissingList(dir: string)

  /** A difference file to write: its name and its resource list. */
  datatype Output = Output(name: string, list: seq<Resource>)

  /** The resource lists of versions lo .. hi, one after another, read from the directories named str(j). */
  function Gather(lists: map<string, seq<Resource>>, lo: int, hi: int): Result<seq<Resource>, PatchError>
    decreases hi - lo
  {
    if hi < lo then Ok([])
    else match Gather(lists, lo, hi - 1)
      case Err(e) => Err(e)
      case Ok(prev) =>
        if IntText(hi) in lists then Ok(prev + lists[IntText(hi)]) else Err(MissingList(IntText(hi)))
  }

  /** Version j has a resource list and it names name. */
  predicate Holds(lists: map<string, seq<Resource>>, j: int, name: string)
  {
    IntText(j) in lists && name in NameSet(lists[IntText(j)])
  }

  /** A range that gathers without error has a list in every version directory. */
  lemma {:induction false} GatherPresent(lists: map<string, seq<Resource>>, lo: int, hi: int)
    requires Gather(lists, lo, hi).Ok?
    ensures forall j :: lo <= j <= hi ==> IntText(j) in lists
    decreases hi - lo
  {
    if lo <= hi {
      GatherPresent(lists, lo, hi - 1);
    }
  }

  /** Once a version directory lacks its list, every longer range fails the same way. */
  lemma {:induction false} GatherErrSticky(lists: map<string, seq<Resource>>, lo: int, hi: int, top: int)
    requires hi <= top
    requires Gather(lists, lo, hi).Err?
    ensures Gather(lists, lo, top) == Gather(lists, lo, hi)
    decreases top - hi
  {
    if hi < top {
      GatherErrSticky(lists, lo, hi + 1, top);
    }
  }

  /** Every resource gathered from versions lo .. hi is the last of its name in the highest version holding that name. */
  lemma {:induction false} GatherHighest(lists: map<string, seq<Resource>>, lo: int, hi: int, name: string)
    requires Gather(lists, lo, hi).Ok?
    requires name in NameSet(Gather(lists, lo, hi).value)
    ensures exists j :: lo <= j <= hi && Holds(lists, j, name) &&
              LastNamed(Gather(lists, lo, hi).value, name) == LastNamed(lists[IntText(j)], name) &&
              forall j' :: j < j' <= hi ==> !Holds(lists, j', name)
    decreases hi - lo
  {
    var prev := Gather(lists, lo, hi - 1).value;
    var top := lists[IntText(hi)];
    LastNamedConcat(prev, top, name);
    if name in NameSet(top) {
      assert lo <= hi;
    } else {
      GatherHighest(lists, lo, hi - 1, name);
      var j :| lo <= j <= hi - 1 && Holds(lists, j, name) &&
        LastNamed(prev, name) == LastNamed(lists[IntText(j)], name) &&
        forall j' :: j < j' <= hi - 1 ==> !Holds(lists, j', name);
      assert forall j' :: j < j' <= hi ==> !Holds(lists, j', name);
    }
  }

  /** The last resource of a name among the first n depends only on those n. */
  lemma {:induction false} LastBeforePrefix(x: seq<Resource>, y: seq<Resource>, n: nat, name: string)
    requires n <= |x| && n <= |y|
    requires forall k :: 0 <= k < n ==> x[k] == y[k]
    requires name in Names(x, n)
    ensures name in Names(y, n) && LastBefore(x, n, name) == LastBefore(y, n, name)
  {
    NamesStep(x, n - 1);
    NamesStep(y, n - 1);
    if x[n - 1].name != name {
      LastBeforePrefix(x, y, n - 1, name);
    }
  }

  /** The last resource of a name among a and the first k of b comes from b when those k have that name, else from a. */
  lemma {:induction false} LastBeforeConcat(a: seq<Resource>, b: seq<Resource>, k: nat, name: string)
    requires k <= |b|
    requires name in Names(a + b, |a| + k)
    ensures name in Names(b, k) ==> LastBefore(a + b, |a| + k, name) == LastBefore(b, k, name)
    ensures name !in Names(b, k) ==> name in Names(a, |a|) && LastBefore(a + b, |a| + k, name) == LastBefore(a, |a|, name)
  {
    var ab := a + b;
    if k == 0 {
      assert name !in Names(b, 0);
      LastBeforePrefix(ab, a, |a|, name);
    } else {
      assert ab[|a| + k - 1] == b[k - 1];
      NamesStep(ab, |a| + k - 1);
      NamesStep(b, k - 1);
      if b[k - 1].name != name {
        LastBeforeConcat(a, b, k - 1, name);
      }
    }
  }

  /** The last resource of a name in a + b comes from b when b has that name, else from a. */
  lemma LastNamedConcat(a: seq<Resource>, b: seq<Resource>, name: string)
    requires name in NameSet(a + b)
    ensures name in NameSet(b) ==> LastNamed(a + b, name) == LastNamed(b, name)
    ensures name !in NameSet(b) ==> name in NameSet(a) && LastNamed(a + b, name) == LastNamed(a, name)
  {
    LastBeforeConcat(a, b, |b|, name);
  }

  /** Every resource listed for versions after i up to top, once per name, each from the highest version. */
  function FullDiff(lists: map<string, seq<Resource>>, i: int, top: int): Result<seq<Resource>, PatchError>
  {
    match Gather(lists, i + 1, top)
    case Err(e) => Err(e)
    case Ok(all) => Ok(PutAll([], all))
  }

  /** The file name of the difference from version base to version top on a platform. */
  function DiffName(platform: string, base: string, top: string): string
  {
    "diff_" + platform + "_" + base + "_" + top + ".json"
  }

  /**
   * The difference list for base i when the latest version directory is named
   * latest: the previous run's list for (i, latest-1) merged with the latest
   * version's list when that file exists, every version's list i+1 .. latest
   * otherwise.
   */
  function DiffList(lists: map<string, seq<Resource>>, existing: map<string, seq<Resource>>, platform: string,
                    i: int, latest: string): Result<seq<Resource>, PatchError>
    requires IsDigits(latest)
  {
    var top := DigitsValue(latest);
    var prev := DiffName(platform, IntText(i), IntText(top - 1));
    if prev in existing then
      if latest in lists then Ok(PutAll(PutAll([], existing[prev]), lists[latest]))
      else Err(MissingList(latest))
    else FullDiff(lists, i, top)
  }

  /** A full difference list has one resource per distinct name, each the last of its name in the highest version holding it. */
  lemma FullDiffContents(lists: map<string, seq<Resource>>, i: int, top: int)
    requires FullDiff(lists, i, top).Ok?
    ensures var d := FullDiff(lists, i, top).value;
            var all := Gather(lists, i + 1, top).value;
            Distinct(d) && NameSet(d) == NameSet(all) && |d| == |NameSet(all)| &&
            forall k :: 0 <= k < |d| ==>
              exists j :: i < j <= top && Holds(lists, j, d[k].name) &&
                d[k] == LastNamed(lists[IntText(j)], d[k].name) &&
                forall j' :: j < j' <= top ==> !Holds(lists, j', d[k].name)
  {
    var all := Gather(lists, i + 1, top).value;
    MergeSize(all);
    MergeKeepsLast(all);
    var d := PutAll([], all);
    forall k | 0 <= k < |d|
      ensures exists j :: i < j <= top && Holds(lists, j, d[k].name) &&
                d[k] == LastNamed(lists[IntText(j)], d[k].name) &&
                forall j' :: j < j' <= top ==> !Holds(lists, j', d[k].name)
    {
      GatherHighest(lists, i + 1, top, d[k].name);
    }
  }

  /**
   * The incremental branch agrees with the full one: merging the full list for
   * (i, latest-1) with the latest version's list gives the full list for
   * (i, latest), same items in the same order.
   */
  lemma IncrementalIsFull(lists: map<string, seq<Resource>>, existing: map<string, seq<Resource>>, platform: string,
                          i: int, top: nat)
    requires i < top
    requires FullDiff(lists, i, top).Ok?
    requires var prev := DiffName(platform, IntText(i), IntText(top - 1));
             prev in existing && FullDiff(lists, i, top - 1) == Ok(existing[prev])
    ensures IsDigits(NatText(top)) && DiffList(lists, existing, platform, i, NatText(top)) == FullDiff(lists, i, top)
  {
    NatTextValue(top);
    var latest := NatText(top);
    var prev := DiffName(platform, IntText(i), IntText(top - 1));
    var before := Gather(lists, i + 1, top - 1).value;
    GatherStep(lists, i + 1, top);
    assert IntText(top) == latest && latest in lists;
    var all := before + lists[latest];
    assert FullDiff(lists, i, top) == Ok(PutAll([], all));
    MergeSize(before);
    assert existing[prev] == PutAll([], before);
    Rebuild(existing[prev]);
    PutAllAppend([], before, lists[latest]);
    assert PutAll(PutAll([], existing[prev]), lists[latest]) == PutAll([], all);
    assert DigitsValue(latest) == top;
  }

  /** The files so far followed by one more named name, or the first error. */
  function Extend(acc: Result<seq<Output>, PatchError>, name: string, list: Result<seq<Resource>, PatchError>)
    : Result<seq<Output>, PatchError>
  {
    match acc
    case Err(e) => Err(e)
    case Ok(prev) =>
      match list
      case Err(e) => Err(e)
      case Ok(l) => Ok(prev + [Output(name, l)])
  }

  /** The files of the first n bases, one per name and list in order, or the first base's error. */
  function Collected(names: seq<string>, results: seq<Result<seq<Resource>, PatchError>>, n: nat)
    : Result<seq<Output>, PatchError>
    requires n <= |names| && n <= |results|
  {
    if n == 0 then Ok([]) else Extend(Collected(names, results, n - 1), names[n - 1], results[n - 1])
  }

  /** The file names of count bases from minVersion against the latest version latest. */
  function BaseNames(platform: string, minVersion: int, latest: string, count: nat): seq<string>
  {
    seq(count, k => DiffName(platform, IntText(minVersion + k), latest))
  }

  /** The difference lists of count bases from minVersion against the latest version latest. */
  function BaseLists(lists: map<string, seq<Resource>>, existing: map<string, seq<Resource>>, platform: string,
                     minVersion: int, latest: string, count: nat): seq<Result<seq<Resource>, PatchError>>
    requires IsDigits(latest)
  {
    seq(count, k => DiffList(lists, existing, platform, minVersion + k, latest))
  }

  /** The difference files for count bases from minVersion, in order. */
  function Outputs(lists: map<string, seq<Resource>>, existing: map<string, seq<Resource>>, platform: string,
                   minVersion: int, latest: string, count: nat): Result<seq<Output>, PatchError>
    requires IsDigits(latest)
  {
    Collected(BaseNames(platform, minVersion, latest, count),
              BaseLists(lists, existing, platform, minVersion, latest, count), count)
  }

  /** The number of bases, minVersion .. latest-1. */
  function BaseCount(minVersion: int, top: int): nat
  {
    if top > minVersion then top - minVersion else 0
  }

  /** Every difference file the tool writes for a resource folder whose directory names are dirs. */
  function DiffFiles(dirs: seq<string>, lists: map<string, seq<Resource>>, existing: map<string, seq<Resource>>,
                     platform: string, minVersion: int): Result<seq<Output>, PatchError>
  {
    var latest := LatestOf(dirs);
    Outputs(lists, existing, platform, minVersion, latest, BaseCount(minVersion, DigitsValue(latest)))
  }

  /** A run that succeeds over n bases writes n files. */
  lemma {:induction false} CollectedCount(names: seq<string>, results: seq<Result<seq<Resource>, PatchError>>, n: nat)
    requires n <= |names| && n <= |results|
    requires Collected(names, results, n).Ok?
    ensures |Collected(names, results, n).value| == n
  {
    if n > 0 {
      CollectedCount(names, results, n - 1);
    }
  }

  /** In a run that succeeds over n bases, the file of base k < n has that base's name and list. */
  lemma {:induction false} CollectedAt(names: seq<string>, results: seq<Result<seq<Resource>, PatchError>>, n: nat, k: nat)
    requires k < n <= |names| && n <= |results|
    requires Collected(names, results, n).Ok?
    ensures var out := Collected(names, results, n).value;
            k < |out| && out[k].name == names[k] && Ok(out[k].list) == results[k]
  {
    CollectedCount(names, results, n - 1);
    if k < n - 1 {
      CollectedAt(names, results, n - 1, k);
    }
  }

  /** A run over n bases fails exactly when one of them fails, and then with the error of the first that fails. */
  lemma {:induction false} CollectedFirstError(names: seq<string>, results: seq<Result<seq<Resource>, PatchError>>, n: nat)
    requires n <= |names| && n <= |results|
    ensures Collected(names, results, n).Err? <==> exists k :: 0 <= k < n && results[k].Err?
    ensures Collected(names, results, n).Err? ==>
              exists k :: 0 <= k < n && results[k] == Err(Collected(names, results, n).error) &&
                forall j :: 0 <= j < k ==> results[j].Ok?
  {
    if n > 0 {
      CollectedFirstError(names, results, n - 1);
      if Collected(names, results, n - 1).Ok? && results[n - 1].Err? {
        assert forall j :: 0 <= j < n - 1 ==> results[j].Ok?;
      }
    }
  }

  /** Once a base fails, the whole run fails the same way. */
  lemma {:induction false} CollectedErrSticky(names: seq<string>, results: seq<Result<seq<Resource>, PatchError>>, n: nat, m: nat)
    requires n <= m <= |names| && m <= |results|
    requires Collected(names, results, n).Err?
    ensures Collected(names, results, m) == Collected(names, results, n)
    decreases m - n
  {
    if n < m {
      CollectedErrSticky(names, results, n + 1, m);
    }
  }

  /** There is one file per base from minVersion below the latest version, named by base and latest version. */
  lemma OutputsNamed(lists: map<string, seq<Resource>>, existing: map<string, seq<Resource>>,
                     platform: string, minVersion: int, latest: string, count: nat)
    requires IsDigits(latest)
    requires Outputs(lists, existing, platform, minVersion, latest, count).Ok?
    ensures var out := Outputs(lists, existing, platform, minVersion, latest, count).value;
            |out| == count &&
            forall k :: 0 <= k < count ==>
              out[k].name == DiffName(platform, IntText(minVersion + k), latest) &&
              Ok(out[k].list) == DiffList(lists, existing, platform, minVersion + k, latest)
  {
    var names := BaseNames(platform, minVersion, latest, count);
    var results := BaseLists(lists, existing, platform, minVersion, latest, count);
    CollectedCount(names, results, count);
    forall k | 0 <= k < count {
      CollectedAt(names, results, count, k);
    }
  }

  /** The run fails exactly when some base's difference list fails. */
  lemma OutputsFail(lists: map<string, seq<Resource>>, existing: map<string, seq<Resource>>,
                    platform: string, minVersion: int, latest: string, count: nat)
    requires IsDigits(latest)
    ensures Outputs(lists, existing, platform, minVersion, latest, count).Err? <==>
              exists i :: minVersion <= i < minVersion + count && DiffList(lists, existing, platform, i, latest).Err?
  {
    var results := BaseLists(lists, existing, platform, minVersion, latest, count);
    CollectedFirstError(BaseNames(platform, minVersion, latest, count), results, count);
    assert forall i :: minVersion <= i < minVersion + count ==>
      results[i - minVersion] == DiffList(lists, existing, platform, i, latest);
  }

  /** Version hi extends the gathered range below it, or fails when its directory has no list. */
  lemma GatherStep(lists: map<string, seq<Resource>>, lo: int, hi: int)
    requires lo <= hi && Gather(lists, lo, hi - 1).Ok?
    ensures Gather(lists, lo, hi) ==
              if IntText(hi) in lists then Ok(Gather(lists, lo, hi - 1).value + lists[IntText(hi)])
              else Err(MissingList(IntText(hi)))
  {
  }

  /** Version j adds its list to the merge of the versions after i below it, or fails without a list. */
  lemma FullDiffStep(lists: map<string, seq<Resource>>, i: int, j: int)
    requires i < j && FullDiff(lists, i, j - 1).Ok?
    ensures FullDiff(lists, i, j) ==
              if IntText(j) in lists then Ok(PutAll(FullDiff(lists, i, j - 1).value, lists[IntText(j)]))
              else Err(MissingList(IntText(j)))
  {
    GatherStep(lists, i + 1, j);
    if IntText(j) in lists {
      PutAllAppend([], Gather(lists, i + 1, j - 1).value, lists[IntText(j)]);
    }
  }

  /** Once a version lacks its list, the merge up to any later version fails the same way. */
  lemma FullDiffErrSticky(lists: map<string, seq<Resource>>, i: int, j: int, top: int)
    requires j <= top && FullDiff(lists, i, j).Err?
    ensures FullDiff(lists, i, top) == FullDiff(lists, i, j)
  {
    GatherErrSticky(lists, i + 1, j, top);
  }

  /** Merges the lists of every version after i up to top, lowest version first. */
  method MergeRange(lists: map<string, seq<Resource>>, i: int, top: int) returns (r: Result<seq<Resource>, PatchError>)
    ensures r == FullDiff(lists, i, top)
  {
    var d: Dict := [];
    var j := i + 1;
    while j <= top
      invariant i + 1 <= j && (j <= top + 1 || j == i + 1)
      invariant FullDiff(lists, i, j - 1) == Ok(d)
      decreases top - j
    {
      var dir := IntText(j);
      FullDiffStep(lists, i, j);
      if dir !in lists {
        FullDiffErrSticky(lists, i, j, top);
        return Err(MissingList(dir));
      }
      d := Merge(d, lists[dir]);
      j := j + 1;
    }
    assert FullDiff(lists, i, top) == FullDiff(lists, i, j - 1);
    r := Ok(d);
  }

  /** The difference list for one base, built as the tool builds it. */
  method BuildDiff(lists: map<string, seq<Resource>>, existing: map<string, seq<Resource>>, platform: string,
                   i: int, latest: string) returns (r: Result<seq<Resource>, PatchError>)
    requires IsDigits(latest)
    ensures r == DiffList(lists, existing, platform, i, latest)
  {
    var top: int := DigitsValue(latest);
    var prev := DiffName(platform, IntText(i), IntText(top - 1));
    if prev !in existing {
      r := MergeRange(lists, i, top);
    } else if latest !in lists {
      r := Err(MissingList(latest));
    } else {
      var d := Merge([], existing[prev]);
      d := Merge(d, lists[latest]);
      r := Ok(d);
    }
  }

  /** Builds the difference files for count bases from minVersion against the latest version latest. */
  method GenDiffs(lists: map<string, seq<Resource>>, existing: map<string, seq<Resource>>,
                  platform: string, minVersion: int, latest: string, count: nat) returns (r: Result<seq<Output>, PatchError>)
    requires IsDigits(latest)
    ensures r == Outputs(lists, existing, platform, minVersion, latest, count)
  {
    ghost var names := BaseNames(platform, minVersion, latest, count);
    ghost var results := BaseLists(lists, existing, platform, minVersion, latest, count);
    r := Ok([]);
    for n := 0 to count
      invariant r == Collected(names, results, n)
      invariant r.Ok?
    {
      var i := minVersion + n;
      var list := BuildDiff(lists, existing, platform, i, latest);
      assert results[n] == list && names[n] == DiffName(platform, IntText(i), latest);
      r := Extend(r, DiffName(platform, IntText(i), latest), list);
      if r.Err? {
        CollectedErrSticky(names, results, n + 1, count);
        return;
      }
    }
  }

  /** Writes, for every base from minVersion below the latest version, its difference file. */
  method GenDiffFile(dirs: seq<string>, lists: map<string, seq<Resource>>, existing: map<string, seq<Resource>>,
                     platform: string, minVersion: int) returns (r: Result<seq<Output>, PatchError>)
    ensures r == DiffFiles(dirs, lists, existing, platform, minVersion)
  {
    var latest := GetLatestVersion(Some(dirs));
    r := GenDiffs(lists, existing, platform, minVersion, latest, BaseCount(minVersion, DigitsValue(latest)));
  }
}
