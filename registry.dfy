/** The list registry of ip-list.cpp: the map `lists` from list id to a list
    (its file path and its current trie), with list_open, list_lookup and
    list_reload. The shared_mutex each list carries only orders concurrent
    lookups and reloads; the operations are modelled as sequential steps. */
module ListRegistry {
  import opened Base
  import opened Lpm
  import opened ListFile
  import opened Loader

  /** One list as a value: where it is loaded from and its current trie. */
  datatype ListState<T> = ListState(path: string, trie: T)

  type Lists<T> = map<string, ListState<T>>

  /** list_open on the registry's value: a duplicate id is rejected, a load
      failure is passed on, and only a successful load adds an entry. */
  function OpenIn<T>(lib: Lpm<T>, fs: FileSystem, lists: Lists<T>, id: string, path: string): (r: Result<Lists<T>>)
    ensures r.Success? <==> id !in lists && path in fs
    ensures id in lists ==> r == Failure(DuplicateId)
    ensures id !in lists && path !in fs ==> r == Failure(BadFile(path))
    ensures r.Success? ==>
              && r.value.Keys == lists.Keys + {id}
              && r.value[id] == ListState(path, LoadLines(lib, fs[path]).trie)
              && forall other :: other in lists ==> r.value[other] == lists[other]
  {
    if id in lists then Failure(DuplicateId)
    else match Load(lib, fs, path)
      case Failure(e) => Failure(e)
      case Success(st) => Success(lists[id := ListState(path, st.trie)])
  }

  /** list_lookup on the registry's value: the stored tag of the best match,
      None for a well-formed address that no entry covers. */
  function FindIn<T>(lib: Lpm<T>, lists: Lists<T>, id: string, address: string): (r: Result<Option<string>>)
    ensures r == Failure(NoSuchId) <==> id !in lists
    ensures r == Failure(BadAddress(address)) <==> id in lists && lib.strtobin(CString(address)).None?
    ensures r.Success? <==> id in lists && lib.strtobin(CString(address)).Some?
    ensures r.Success? ==>
              var key := lib.strtobin(CString(address)).value;
              r.value == lib.lookup(lists[id].trie, key.addr, key.len)
  {
    if id !in lists then Failure(NoSuchId)
    else match lib.strtobin(CString(address))
      case None => Failure(BadAddress(address))
      case Some(key) => Success(lib.lookup(lists[id].trie, key.addr, key.len))
  }

  /** list_reload on the registry's value: an unknown id or an unreadable
      file changes nothing; otherwise only that list's trie is replaced by a
      trie loaded afresh from its own path. */
  function ReloadIn<T>(lib: Lpm<T>, fs: FileSystem, lists: Lists<T>, id: string): (r: Result<Lists<T>>)
    ensures r.Success? <==> id in lists && lists[id].path in fs
    ensures id !in lists ==> r == Failure(NoSuchId)
    ensures id in lists && lists[id].path !in fs ==> r == Failure(BadFile(lists[id].path))
    ensures r.Success? ==>
              && r.value.Keys == lists.Keys
              && r.value[id] == ListState(lists[id].path, LoadLines(lib, fs[lists[id].path]).trie)
              && forall other :: other in lists && other != id ==> r.value[other] == lists[other]
  {
    if id !in lists then Failure(NoSuchId)
    else match Load(lib, fs, lists[id].path)
      case Failure(e) => Failure(e)
      case Success(st) => Success(lists[id := ListState(lists[id].path, st.trie)])
  }

  /** A lookup reads nothing but the named list's trie. */
  lemma FindInFrame<T>(lib: Lpm<T>, a: Lists<T>, b: Lists<T>, id: string, address: string)
    requires id in a <==> id in b
    requires id in a ==> a[id].trie == b[id].trie
    ensures FindIn(lib, a, id, address) == FindIn(lib, b, id, address)
  {
  }

  /** After a successful reload the list answers exactly as a list freshly
      opened from the same path would, and every other list answers as
      before. */
  lemma ReloadThenFind<T>(lib: Lpm<T>, fs: FileSystem, lists: Lists<T>, id: string, other: string, address: string)
    requires ReloadIn(lib, fs, lists, id).Success?
    ensures OpenIn(lib, fs, map[], id, lists[id].path).Success?
    ensures FindIn(lib, ReloadIn(lib, fs, lists, id).value, id, address)
              == FindIn(lib, OpenIn(lib, fs, map[], id, lists[id].path).value, id, address)
    ensures other != id ==>
      FindIn(lib, ReloadIn(lib, fs, lists, id).value, other, address) == FindIn(lib, lists, other, address)
  {
  }

  /** Reloading is idempotent: with the files unchanged, a second reload of
      the same list succeeds and leaves the registry as the first left it. */
  lemma ReloadIdempotent<T>(lib: Lpm<T>, fs: FileSystem, lists: Lists<T>, id: string)
    requires ReloadIn(lib, fs, lists, id).Success?
    ensures ReloadIn(lib, fs, ReloadIn(lib, fs, lists, id).value, id) == ReloadIn(lib, fs, lists, id)
  {
    var once := ReloadIn(lib, fs, lists, id).value;
    var twice := ReloadIn(lib, fs, once, id).value;
    forall other | other in once
      ensures other in twice && twice[other] == once[other]
    {
    }
    assert twice == once;
  }

  /** One registered list: `path` is fixed when the list is opened, `trie`
      is swapped by each successful reload. */
  class IpList<T> {
    const path: string
    var trie: T

    constructor (path: string, trie: T)
      ensures this.path == path && this.trie == trie
    {
      this.path := path;
      this.trie := trie;
    }
  }

  /** The global `lists` map of ip-list.cpp, with the library it calls. */
  class Registry<T> {
    const lib: Lpm<T>
    var lists: map<string, IpList<T>>

    /** Distinct ids own distinct list objects, so a reload of one id never
        touches another. */
    ghost predicate Valid()
      reads this
    {
      forall a, b :: a in lists && b in lists && a != b ==> lists[a] != lists[b]
    }

    /** The registry as a value: each id with its path and its current trie. */
    ghost function View(): Lists<T>
      reads this, lists.Values
    {
      map id | id in lists :: ListState(lists[id].path, lists[id].trie)
    }

    constructor (lib: Lpm<T>)
      ensures Valid() && this.lib == lib && View() == map[]
    {
      this.lib := lib;
      this.lists := map[];
    }

    /** list_open: the entry is created only after the file has loaded. */
    method Open(fs: FileSystem, id: string, path: string) returns (r: Outcome)
      requires Valid()
      modifies this
      ensures Valid()
      ensures match OpenIn(lib, fs, old(View()), id, path)
        case Success(v) => r == Pass && View() == v
        case Failure(e) => r == Fail(e) && View() == old(View())
    {
      if id in lists {
        return Fail(DuplicateId);
      }
      var res := LoadFile(lib, fs, path);
      if res.Failure? {
        return Fail(res.error);
      }
      var l := new IpList(path, res.value.trie);
      lists := lists[id := l];
      assert View() == old(View())[id := ListState(path, res.value.trie)];
      r := Pass;
    }

    /** list_lookup: `tag` is assigned only when the address is found; on an
        error or a miss the caller's `tag` comes back as it was. */
    method Lookup(id: string, address: string, tagIn: string) returns (found: Result<bool>, tag: string)
      ensures match FindIn(lib, View(), id, address)
        case Failure(e) => found == Failure(e) && tag == tagIn
        case Success(None) => found == Success(false) && tag == tagIn
        case Success(Some(t)) => found == Success(true) && tag == t
    {
      if id !in lists {
        return Failure(NoSuchId), tagIn;
      }
      match lib.strtobin(CString(address)) {
        case None =>
          return Failure(BadAddress(address)), tagIn;
        case Some(key) =>
          var t := lib.lookup(lists[id].trie, key.addr, key.len);
          found := Success(t.Some?);
          tag := if t.Some? then t.value else tagIn;
      }
    }

    /** list_reload: the new trie is loaded from the list's own path first,
        and swapped in only when that succeeded. */
    method Reload(fs: FileSystem, id: string) returns (r: Outcome)
      requires Valid()
      modifies lists.Values
      ensures Valid() && lists == old(lists)
      ensures match ReloadIn(lib, fs, old(View()), id)
        case Success(v) => r == Pass && View() == v
        case Failure(e) => r == Fail(e) && View() == old(View())
    {
      if id !in lists {
        return Fail(NoSuchId);
      }
      var l := lists[id];
      var res := LoadFile(lib, fs, l.path);
      if res.Failure? {
        return Fail(res.error);
      }
      l.trie := res.value.trie;
      assert View() == old(View())[id := ListState(l.path, res.value.trie)];
      r := Pass;
    }
  }

  /** Opening list "A" from `p1` and then again from `p2`: the first open
      succeeds, the second fails with DuplicateId, and "A" still answers
      from `p1`'s content. */
  method DuplicateOpen<T>(lib: Lpm<T>, fs: FileSystem, p1: string, p2: string, address: string)
    returns (first: Outcome, second: Outcome, found: Result<bool>, tag: string)
    requires p1 in fs
    ensures first == Pass
    ensures second == Fail(DuplicateId)
    ensures match lib.strtobin(CString(address))
      case None => found == Failure(BadAddress(address)) && tag == ""
      case Some(key) =>
        var t := lib.lookup(LoadLines(lib, fs[p1]).trie, key.addr, key.len);
        found == Success(t.Some?) && tag == (if t.Some? then t.value else "")
  {
    var reg := new Registry(lib);
    first := reg.Open(fs, "A", p1);
    second := reg.Open(fs, "A", p2);
    found, tag := reg.Lookup("A", address, "");
  }
}
