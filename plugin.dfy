/** The decisions the plugin entry points of ip-list.cpp make around the
    registry: Halon_init's loop over the configured lists,
    Halon_plugin_command's "reload:" command, and the value ip_list_lookup
    hands back to the script. */
module Plugin {
  import opened Base
  import opened Lpm
  import opened ListFile
  import opened Loader
  import opened ListRegistry

  const ReloadPrefix := "reload:"

  /** The id a command reloads: what follows the 7-character "reload:"
      prefix of the C string, or None for any other command. */
  function ReloadTarget(input: string): (id: Option<string>)
    ensures id.Some? <==> ReloadPrefix <= CString(input)
    ensures id.Some? ==> CString(input) == ReloadPrefix + id.value
  {
    var s := CString(input);
    if |s| >= 7 && s[..7] == ReloadPrefix then Some(s[7..]) else None
  }

  /** A "reload:" command for a NUL-free id names exactly that id. */
  lemma ReloadTargetOf(id: string)
    requires '\0' !in id
    ensures ReloadTarget(ReloadPrefix + id) == Some(id)
  {
    var s := ReloadPrefix + id;
    assert '\0' !in s by {
      forall i | 0 <= i < |s| ensures s[i] != '\0' {
        if i >= 7 { assert s[i] == id[i - 7]; }
      }
    }
    CStringNoNul(s);
  }

  /** The reply of Halon_plugin_command: the text written to `out` and the
      return value. */
  datatype Reply = Reply(text: string, ok: bool)

  /** The reply to a reload that ended with `r`. */
  function ReloadReply(r: Outcome): (reply: Reply)
    ensures reply.ok <==> r.Pass?
    ensures r.Pass? ==> reply.text == "OK"
    ensures r.Fail? ==> reply.text == r.error.Message()
  {
    match r
    case Pass => Reply("OK", true)
    case Fail(e) => Reply(e.Message(), false)
  }

  const UnknownCommand := Reply("Unknown command", false)

  /** Halon_plugin_command: a "reload:<id>" command reloads <id>; anything
      else is answered "Unknown command" and changes nothing. */
  method Command<T>(reg: Registry<T>, fs: FileSystem, input: string) returns (reply: Reply)
    requires reg.Valid()
    modifies reg.lists.Values
    ensures reg.Valid() && reg.lists == old(reg.lists)
    ensures ReloadTarget(input).None? ==> reply == UnknownCommand && reg.View() == old(reg.View())
    ensures ReloadTarget(input).Some? ==>
      match ReloadIn(reg.lib, fs, old(reg.View()), ReloadTarget(input).value)
      case Success(v) => reply == Reply("OK", true) && reg.View() == v
      case Failure(e) => reply == Reply(e.Message(), false) && reg.View() == old(reg.View())
  {
    match ReloadTarget(input) {
      case None =>
        reply := UnknownCommand;
      case Some(id) =>
        var r := reg.Reload(fs, id);
        reply := ReloadReply(r);
    }
  }

  /** The script values ip_list_lookup can return. */
  datatype HslValue = Bool(b: bool) | Str(s: string)

  /** The value for a lookup that found (`found`) a tag `tag`: boolean false
      on a miss, boolean true on a match with an empty tag, the tag itself
      otherwise. */
  function LookupValue(found: bool, tag: string): (v: HslValue)
    ensures v == Bool(false) <==> !found
    ensures v == Bool(true) <==> found && tag == ""
    ensures v.Str? <==> found && tag != ""
    ensures v.Str? ==> v.s == tag
  {
    if !found || tag == "" then Bool(found) else Str(tag)
  }

  /** A miss and a match can always be told apart by the value, and two
      matches with different tags give different values. */
  lemma LookupValueDistinguishes(t1: string, t2: string)
    ensures LookupValue(false, t1) != LookupValue(true, t2)
    ensures t1 != t2 ==> LookupValue(true, t1) != LookupValue(true, t2)
  {
  }

  /** ip_list_lookup for two string arguments, which reach list_lookup as
      C strings: the return value is left unset (None) when list_lookup
      throws, and is LookupValue otherwise. */
  method ScriptLookup<T>(reg: Registry<T>, id: string, address: string) returns (ret: Option<HslValue>)
    ensures match FindIn(reg.lib, reg.View(), CString(id), CString(address))
      case Failure(_) => ret == None
      case Success(None) => ret == Some(Bool(false))
      case Success(Some(t)) => ret == Some(if t == "" then Bool(true) else Str(t))
  {
    var found, tag := reg.Lookup(CString(id), CString(address), "");
    if found.Failure? {
      ret := None;
    } else {
      ret := Some(LookupValue(found.value, tag));
    }
  }

  /** One element of the "lists" configuration array; an `id` or `path`
      that is missing or not a string is None. */
  datatype ListConfig = ListConfig(id: Option<string>, path: Option<string>)

  predicate Complete(c: ListConfig) {
    c.id.Some? && c.path.Some?
  }

  /** The id and the path list_open receives: the configured strings as C
      strings. */
  function IdOf(c: ListConfig): string
    requires Complete(c)
  {
    CString(c.id.value)
  }

  function PathOf(c: ListConfig): string
    requires Complete(c)
  {
    CString(c.path.value)
  }

  /** Halon_init's loop on the registry's value, from element `l` on:
      incomplete elements are skipped, and the first failing open ends the
      loop with false, keeping the lists opened before it. */
  function InitFrom<T>(lib: Lpm<T>, fs: FileSystem, lists: Lists<T>, configs: seq<ListConfig>, l: nat): (r: (bool, Lists<T>))
    requires l <= |configs|
    ensures lists.Keys <= r.1.Keys
    ensures forall id :: id in lists ==> r.1[id] == lists[id]
    decreases |configs| - l
  {
    if l == |configs| then (true, lists)
    else if !Complete(configs[l]) then InitFrom(lib, fs, lists, configs, l + 1)
    else match OpenIn(lib, fs, lists, IdOf(configs[l]), PathOf(configs[l]))
      case Failure(_) => (false, lists)
      case Success(next) => InitFrom(lib, fs, next, configs, l + 1)
  }

  /** Halon_init on the registry's value; an absent "lists" setting opens
      nothing and succeeds. */
  function InitIn<T>(lib: Lpm<T>, fs: FileSystem, lists: Lists<T>, configs: Option<seq<ListConfig>>): (r: (bool, Lists<T>))
    ensures configs.None? ==> r == (true, lists)
    ensures forall id :: id in lists ==> id in r.1 && r.1[id] == lists[id]
  {
    match configs
    case None => (true, lists)
    case Some(cs) => InitFrom(lib, fs, lists, cs, 0)
  }

  /** Halon_init: open each configured list in order, skipping elements
      without an id or a path; a failing open is reported by returning false
      and stops the loop. */
  method Init<T>(reg: Registry<T>, fs: FileSystem, configs: Option<seq<ListConfig>>) returns (ok: bool)
    requires reg.Valid()
    modifies reg
    ensures reg.Valid()
    ensures (ok, reg.View()) == InitIn(reg.lib, fs, old(reg.View()), configs)
  {
    if configs.None? {
      return true;
    }
    var cs := configs.value;
    var l := 0;
    while l < |cs|
      invariant 0 <= l <= |cs| && reg.Valid()
      invariant InitFrom(reg.lib, fs, reg.View(), cs, l) == InitIn(reg.lib, fs, old(reg.View()), configs)
    {
      var c := cs[l];
      l := l + 1;
      if !Complete(c) {
        continue;
      }
      var r := reg.Open(fs, IdOf(c), PathOf(c));
      if r.Fail? {
        return false;
      }
    }
    return true;
  }

  /** The condition under which the configuration elements from `l` on all
      open: each complete element names a readable file and an id not yet
      registered, and no two complete elements share an id. */
  predicate Openable(fs: FileSystem, lists: Lists, configs: seq<ListConfig>, l: nat)
    requires l <= |configs|
  {
    && (forall i :: l <= i < |configs| && Complete(configs[i]) ==>
          PathOf(configs[i]) in fs && IdOf(configs[i]) !in lists)
    && (forall i, j :: l <= i < j < |configs| && Complete(configs[i]) && Complete(configs[j]) ==>
          IdOf(configs[i]) != IdOf(configs[j]))
  }

  /** Every complete element from `l` on is registered under its id, with
      its path and the trie loaded from that path. */
  ghost predicate OpensAll<T>(lib: Lpm<T>, fs: FileSystem, result: Lists<T>, configs: seq<ListConfig>, l: nat)
    requires l <= |configs|
  {
    forall i :: l <= i < |configs| && Complete(configs[i]) ==>
      && IdOf(configs[i]) in result
      && PathOf(configs[i]) in fs
      && result[IdOf(configs[i])] == ListState(PathOf(configs[i]), LoadLines(lib, fs[PathOf(configs[i])]).trie)
  }

  /** Initialisation succeeds exactly when every configured list can be
      opened, and then every configured list is registered as loaded from
      its path. */
  lemma {:induction false} InitSucceedsIff<T>(lib: Lpm<T>, fs: FileSystem, lists: Lists<T>, configs: seq<ListConfig>, l: nat)
    requires l <= |configs|
    ensures InitFrom(lib, fs, lists, configs, l).0 <==> Openable(fs, lists, configs, l)
    ensures InitFrom(lib, fs, lists, configs, l).0 ==> OpensAll(lib, fs, InitFrom(lib, fs, lists, configs, l).1, configs, l)
    ensures InitFrom(lib, fs, lists, configs, l).0 ==>
              InitFrom(lib, fs, lists, configs, l).1.Keys == lists.Keys + ConfiguredIds(configs, l)
    decreases |configs| - l
  {
    if l == |configs| {
      assert ConfiguredIds(configs, l) == {};
    } else {
      var c := configs[l];
      if !Complete(c) {
        InitSucceedsIff(lib, fs, lists, configs, l + 1);
        SucceedsAfterSkip(lib, fs, lists, configs, l);
      } else {
        var step := OpenIn(lib, fs, lists, IdOf(c), PathOf(c));
        if step.Success? {
          InitSucceedsIff(lib, fs, step.value, configs, l + 1);
          SucceedsAfterOpen(lib, fs, lists, step.value, configs, l);
        } else {
          assert !(PathOf(c) in fs && IdOf(c) !in lists);
        }
      }
    }
  }

  /** The step of InitSucceedsIff past an incomplete element. */
  lemma SucceedsAfterSkip<T>(lib: Lpm<T>, fs: FileSystem, lists: Lists<T>, configs: seq<ListConfig>, l: nat)
    requires l < |configs| && !Complete(configs[l])
    requires InitFrom(lib, fs, lists, configs, l + 1).0 <==> Openable(fs, lists, configs, l + 1)
    requires InitFrom(lib, fs, lists, configs, l + 1).0 ==>
               OpensAll(lib, fs, InitFrom(lib, fs, lists, configs, l + 1).1, configs, l + 1)
    requires InitFrom(lib, fs, lists, configs, l + 1).0 ==>
               InitFrom(lib, fs, lists, configs, l + 1).1.Keys == lists.Keys + ConfiguredIds(configs, l + 1)
    ensures InitFrom(lib, fs, lists, configs, l).0 <==> Openable(fs, lists, configs, l)
    ensures InitFrom(lib, fs, lists, configs, l).0 ==> OpensAll(lib, fs, InitFrom(lib, fs, lists, configs, l).1, configs, l)
    ensures InitFrom(lib, fs, lists, configs, l).0 ==>
              InitFrom(lib, fs, lists, configs, l).1.Keys == lists.Keys + ConfiguredIds(configs, l)
  {
    var r := InitFrom(lib, fs, lists, configs, l + 1);
    assert InitFrom(lib, fs, lists, configs, l) == r;
    if Openable(fs, lists, configs, l + 1) {
      OpenableSkip(fs, lists, configs, l);
    }
    if r.0 {
      OpensAllSkip(lib, fs, r.1, configs, l);
      ConfiguredIdsStep(configs, l);
    }
  }

  /** The step of InitSucceedsIff past a complete element that opens. */
  lemma SucceedsAfterOpen<T>(lib: Lpm<T>, fs: FileSystem, lists: Lists<T>, next: Lists<T>, configs: seq<ListConfig>, l: nat)
    requires l < |configs| && Complete(configs[l])
    requires OpenIn(lib, fs, lists, IdOf(configs[l]), PathOf(configs[l])) == Success(next)
    requires InitFrom(lib, fs, next, configs, l + 1).0 <==> Openable(fs, next, configs, l + 1)
    requires InitFrom(lib, fs, next, configs, l + 1).0 ==>
               OpensAll(lib, fs, InitFrom(lib, fs, next, configs, l + 1).1, configs, l + 1)
    requires InitFrom(lib, fs, next, configs, l + 1).0 ==>
               InitFrom(lib, fs, next, configs, l + 1).1.Keys == next.Keys + ConfiguredIds(configs, l + 1)
    ensures InitFrom(lib, fs, lists, configs, l).0 <==> Openable(fs, lists, configs, l)
    ensures InitFrom(lib, fs, lists, configs, l).0 ==> OpensAll(lib, fs, InitFrom(lib, fs, lists, configs, l).1, configs, l)
    ensures InitFrom(lib, fs, lists, configs, l).0 ==>
              InitFrom(lib, fs, lists, configs, l).1.Keys == lists.Keys + ConfiguredIds(configs, l)
  {
    var r := InitFrom(lib, fs, next, configs, l + 1);
    assert InitFrom(lib, fs, lists, configs, l) == r;
    if Openable(fs, lists, configs, l) {
      OpenableBeforeOpen(lib, fs, lists, next, configs, l);
    }
    if Openable(fs, next, configs, l + 1) {
      OpenableAfterOpen(lib, fs, lists, next, configs, l);
    }
    if r.0 {
      OpensAllAfterOpen(lib, fs, lists, next, r.1, configs, l);
      ConfiguredIdsStep(configs, l);
    }
  }


  /** Opening a complete element and then opening all the later ones opens
      all of them from that element on. */
  lemma OpensAllAfterOpen<T>(lib: Lpm<T>, fs: FileSystem, lists: Lists<T>, next: Lists<T>, result: Lists<T>, cs: seq<ListConfig>, l: nat)
    requires l < |cs| && Complete(cs[l])
    requires OpenIn(lib, fs, lists, IdOf(cs[l]), PathOf(cs[l])) == Success(next)
    requires OpensAll(lib, fs, result, cs, l + 1)
    requires forall id :: id in next ==> id in result && result[id] == next[id]
    ensures OpensAll(lib, fs, result, cs, l)
  {
    assert result[IdOf(cs[l])] == next[IdOf(cs[l])];
  }


  /** Elements that can all be opened still can, after the first of them,
      on the registry it leaves. */
  lemma OpenableBeforeOpen<T>(lib: Lpm<T>, fs: FileSystem, lists: Lists<T>, next: Lists<T>, cs: seq<ListConfig>, l: nat)
    requires l < |cs| && Complete(cs[l])
    requires OpenIn(lib, fs, lists, IdOf(cs[l]), PathOf(cs[l])) == Success(next)
    requires Openable(fs, lists, cs, l)
    ensures Openable(fs, next, cs, l + 1)
  {
    forall i | l + 1 <= i < |cs| && Complete(cs[i])
      ensures IdOf(cs[i]) !in next
    {
      assert IdOf(cs[i]) != IdOf(cs[l]);
    }
  }

  /** The ids of the complete elements from `l` on. */
  function ConfiguredIds(configs: seq<ListConfig>, l: nat): set<string>
    requires l <= |configs|
  {
    set i | l <= i < |configs| && Complete(configs[i]) :: IdOf(configs[i])
  }

  lemma ConfiguredIdsStep(configs: seq<ListConfig>, l: nat)
    requires l < |configs|
    ensures ConfiguredIds(configs, l) ==
              (if Complete(configs[l]) then {IdOf(configs[l])} else {}) + ConfiguredIds(configs, l + 1)
  {
    var a := ConfiguredIds(configs, l);
    var b := (if Complete(configs[l]) then {IdOf(configs[l])} else {}) + ConfiguredIds(configs, l + 1);
    forall id | id in a ensures id in b {
      var i :| l <= i < |configs| && Complete(configs[i]) && IdOf(configs[i]) == id;
      if i > l {
        assert id in ConfiguredIds(configs, l + 1);
      }
    }
    forall id | id in b ensures id in a {
      if id in ConfiguredIds(configs, l + 1) {
        var i :| l + 1 <= i < |configs| && Complete(configs[i]) && IdOf(configs[i]) == id;
        assert id in a;
      } else {
        assert IdOf(configs[l]) in a;
      }
    }
  }

  /** How a failed initialisation ends at element `f`: the complete elements
      from `l` up to `f` all opened, each as list_open adds it, the result
      holds those lists and no other new one, and element `f` fails to open
      on that result. */
  ghost predicate StopsAt<T>(lib: Lpm<T>, fs: FileSystem, lists: Lists<T>, configs: seq<ListConfig>, l: nat, f: nat, result: Lists<T>)
    requires l <= f < |configs|
  {
    && Complete(configs[f])
    && Openable(fs, lists, configs[..f], l)
    && OpensAll(lib, fs, result, configs[..f], l)
    && result.Keys == lists.Keys + ConfiguredIds(configs[..f], l)
    && OpenIn(lib, fs, result, IdOf(configs[f]), PathOf(configs[f])).Failure?
  }

  /** An incomplete element neither blocks nor adds an open. */
  lemma OpenableSkip<T>(fs: FileSystem, lists: Lists<T>, cs: seq<ListConfig>, l: nat)
    requires l < |cs| && !Complete(cs[l]) && Openable(fs, lists, cs, l + 1)
    ensures Openable(fs, lists, cs, l)
  {
  }

  lemma OpensAllSkip<T>(lib: Lpm<T>, fs: FileSystem, result: Lists<T>, cs: seq<ListConfig>, l: nat)
    requires l < |cs| && !Complete(cs[l]) && OpensAll(lib, fs, result, cs, l + 1)
    ensures OpensAll(lib, fs, result, cs, l)
  {
  }

  /** Skipping an incomplete element keeps where a failed initialisation
      stops. */
  lemma StopsAfterSkip<T>(lib: Lpm<T>, fs: FileSystem, lists: Lists<T>, configs: seq<ListConfig>, l: nat, f: nat, result: Lists<T>)
    requires l < f < |configs| && !Complete(configs[l])
    requires StopsAt(lib, fs, lists, configs, l + 1, f, result)
    ensures StopsAt(lib, fs, lists, configs, l, f, result)
  {
    var cs := configs[..f];
    assert cs[l] == configs[l];
    ConfiguredIdsStep(cs, l);
    OpenableSkip(fs, lists, cs, l);
    OpensAllSkip(lib, fs, result, cs, l);
  }

  /** A first element that fails to open is where initialisation stops. */
  lemma StopsHere<T>(lib: Lpm<T>, fs: FileSystem, lists: Lists<T>, configs: seq<ListConfig>, l: nat)
    requires l < |configs| && Complete(configs[l])
    requires OpenIn(lib, fs, lists, IdOf(configs[l]), PathOf(configs[l])).Failure?
    ensures StopsAt(lib, fs, lists, configs, l, l, lists)
  {
    assert ConfiguredIds(configs[..l], l) == {};
  }

  /** The elements that open before a failure can all be opened on the
      registry before the first of them. */
  lemma OpenableAfterOpen<T>(lib: Lpm<T>, fs: FileSystem, lists: Lists<T>, next: Lists<T>, cs: seq<ListConfig>, l: nat)
    requires l < |cs| && Complete(cs[l])
    requires OpenIn(lib, fs, lists, IdOf(cs[l]), PathOf(cs[l])) == Success(next)
    requires Openable(fs, next, cs, l + 1)
    ensures Openable(fs, lists, cs, l)
  {
    forall i | l + 1 <= i < |cs| && Complete(cs[i])
      ensures IdOf(cs[i]) !in lists && IdOf(cs[i]) != IdOf(cs[l])
    {
      assert IdOf(cs[i]) !in next;
    }
  }

  /** Opening a complete element and then stopping at `f` is stopping at
      `f` from that element on. */
  lemma StopsAfterOpen<T>(lib: Lpm<T>, fs: FileSystem, lists: Lists<T>, next: Lists<T>, configs: seq<ListConfig>, l: nat, f: nat, result: Lists<T>)
    requires l < f < |configs| && Complete(configs[l])
    requires OpenIn(lib, fs, lists, IdOf(configs[l]), PathOf(configs[l])) == Success(next)
    requires StopsAt(lib, fs, next, configs, l + 1, f, result)
    requires forall id :: id in next ==> id in result && result[id] == next[id]
    ensures StopsAt(lib, fs, lists, configs, l, f, result)
  {
    var cs := configs[..f];
    assert cs[l] == configs[l];
    ConfiguredIdsStep(cs, l);
    OpenableAfterOpen(lib, fs, lists, next, cs, l);
    OpensAllAfterOpen(lib, fs, lists, next, result, cs, l);
  }

  /** Initialisation that returns false has stopped at the first element
      that could not be opened: only the complete elements before it are
      registered. */
  lemma {:induction false} InitStopsAtFailure<T>(lib: Lpm<T>, fs: FileSystem, lists: Lists<T>, configs: seq<ListConfig>, l: nat)
    requires l <= |configs|
    requires !InitFrom(lib, fs, lists, configs, l).0
    ensures exists f :: l <= f < |configs| && StopsAt(lib, fs, lists, configs, l, f, InitFrom(lib, fs, lists, configs, l).1)
    decreases |configs| - l
  {
    var result := InitFrom(lib, fs, lists, configs, l).1;
    var c := configs[l];
    if !Complete(c) {
      InitStopsAtFailure(lib, fs, lists, configs, l + 1);
      var f :| l + 1 <= f < |configs| && StopsAt(lib, fs, lists, configs, l + 1, f, result);
      StopsAfterSkip(lib, fs, lists, configs, l, f, result);
    } else {
      var step := OpenIn(lib, fs, lists, IdOf(c), PathOf(c));
      if step.Failure? {
        StopsHere(lib, fs, lists, configs, l);
      } else {
        var next := step.value;
        InitStopsAtFailure(lib, fs, next, configs, l + 1);
        var f :| l + 1 <= f < |configs| && StopsAt(lib, fs, next, configs, l + 1, f, result);
        StopsAfterOpen(lib, fs, lists, next, configs, l, f, result);
      }
    }
  }
}
