/** Environment lists of "name=value" strings (pkg/util/envlist.go) and the code that builds them:
    StartUnit (pkg/unit/unit_manager.go), makeAppEnv (pkg/runtime/itzo_linux.go) and
    EnsureDefaultEnviron (pkg/helper/helper.go). */
module EnvLists {
  import opened Basics

  // ----- Names and values --------------------------------------------------------------

  /** strings.SplitN(e, "=", 2)[0] */
  function Name(e: string): string {
    if e == "" || e[0] == '=' then "" else [e[0]] + Name(e[1..])
  }

  /** strings.SplitN(e, "=", 2)[1], for an entry that has a '=' */
  function Value(e: string): string
    requires '=' in e
  {
    if e[0] == '=' then e[1..] else Value(e[1..])
  }

  function Entry(key: string, value: string): string {
    key + "=" + value
  }

  lemma {:induction false} NameHasNoSign(e: string)
    ensures '=' !in Name(e)
  {
    if e != "" && e[0] != '=' {
      NameHasNoSign(e[1..]);
    }
  }

  lemma {:induction false} SplitEntry(key: string, value: string)
    requires '=' !in key
    ensures Name(Entry(key, value)) == key && Value(Entry(key, value)) == value
  {
    var e := Entry(key, value);
    if key == "" {
      assert e[1..] == value;
    } else {
      SplitEntry(key[1..], value);
      assert e[1..] == Entry(key[1..], value);
    }
  }

  /** Splitting and re-joining an entry gives it back. */
  lemma {:induction false} RejoinEntry(e: string)
    requires '=' in e
    ensures Entry(Name(e), Value(e)) == e
  {
    if e[0] == '=' {
      assert "" + "=" + e[1..] == e;
    } else {
      RejoinEntry(e[1..]);
      assert Entry(Name(e), Value(e)) == [e[0]] + Entry(Name(e[1..]), Value(e[1..]));
    }
  }

  // ----- Selecting entries by name, reversing ------------------------------------------

  function Reverse(s: seq<string>): (r: seq<string>)
    ensures |r| == |s|
  {
    if s == [] then [] else Reverse(s[1..]) + [s[0]]
  }

  /** The entries whose name is in `names`, in order. */
  ghost function Named(env: seq<string>, names: iset<string>): seq<string> {
    if env == [] then [] else (if Name(env[0]) in names then [env[0]] else []) + Named(env[1..], names)
  }

  lemma NamedCons(e: string, rest: seq<string>, names: iset<string>)
    ensures Named([e] + rest, names) == (if Name(e) in names then [e] else []) + Named(rest, names)
  {
    assert ([e] + rest)[1..] == rest;
  }

  lemma {:induction false} NamedJoin(a: seq<string>, b: seq<string>, names: iset<string>)
    ensures Named(a + b, names) == Named(a, names) + Named(b, names)
  {
    if a == [] {
      assert a + b == b;
    } else {
      var e, rest := a[0], a[1..];
      assert a == [e] + rest && a + b == [e] + (rest + b);
      NamedJoin(rest, b, names);
      NamedCons(e, rest, names);
      NamedCons(e, rest + b, names);
    }
  }

  lemma NamedOne(e: string, names: iset<string>)
    ensures Named([e], names) == if Name(e) in names then [e] else []
  {
    assert [e][1..] == [];
  }

  lemma {:induction false} NamedMember(env: seq<string>, names: iset<string>, e: string)
    ensures e in Named(env, names) <==> e in env && Name(e) in names
  {
    if env != [] {
      NamedMember(env[1..], names, e);
    }
  }

  lemma {:induction false} ReverseJoin(a: seq<string>, b: seq<string>)
    ensures Reverse(a + b) == Reverse(b) + Reverse(a)
  {
    if a == [] {
      assert a + b == b;
    } else {
      ReverseJoin(a[1..], b);
      assert (a + b)[1..] == a[1..] + b;
    }
  }

  lemma {:induction false} ReverseTwice(s: seq<string>)
    ensures Reverse(Reverse(s)) == s
  {
    if s != [] {
      ReverseTwice(s[1..]);
      ReverseJoin(Reverse(s[1..]), [s[0]]);
      assert Reverse([s[0]]) == [s[0]];
    }
  }

  // ----- AddToEnvList ------------------------------------------------------------------

  /** What AddToEnvList still appends when the first `n` entries are yet to be scanned, last one
      first; `found` tells whether the key has been met. */
  function Scan(env: seq<string>, n: nat, key: string, value: string, overwrite: bool, found: bool): seq<string>
    requires n <= |env|
  {
    if n == 0 then if found then [] else [Entry(key, value)]
    else if Name(env[n - 1]) != key then [env[n - 1]] + Scan(env, n - 1, key, value, overwrite, found)
    else if found then Scan(env, n - 1, key, value, overwrite, true)
    else [if overwrite then Entry(key, value) else env[n - 1]] + Scan(env, n - 1, key, value, overwrite, true)
  }

  function Added(env: seq<string>, key: string, value: string, overwrite: bool): seq<string> {
    Scan(env, |env|, key, value, overwrite, false)
  }

  method AddToEnvList(env: seq<string>, key: string, value: string, overwrite: bool) returns (result: seq<string>)
    ensures result == Added(env, key, value, overwrite)
  {
    var found := false;
    result := [];
    for i := |env| downto 0
      invariant result + Scan(env, i, key, value, overwrite, found) == Added(env, key, value, overwrite)
    {
      var e := env[i];
      if Name(e) != key {
        AppendThenRest(result, e, Scan(env, i, key, value, overwrite, found));
        result := result + [e];
        continue;
      }
      if !found {
        found := true;
        var x := if overwrite then Entry(key, value) else e;
        AppendThenRest(result, x, Scan(env, i, key, value, overwrite, true));
        result := result + [x];
      }
    }
    if !found {
      result := result + [Entry(key, value)];
    }
  }

  lemma AppendThenRest(done: seq<string>, e: string, rest: seq<string>)
    ensures done + ([e] + rest) == done + [e] + rest
  {
  }

  lemma NamedPrefix(env: seq<string>, n: nat, names: iset<string>)
    requires 0 < n <= |env|
    ensures Named(env[..n], names) ==
            if Name(env[n - 1]) in names then Named(env[..n - 1], names) + [env[n - 1]] else Named(env[..n - 1], names)
  {
    assert env[..n] == env[..n - 1] + [env[n - 1]];
    NamedJoin(env[..n - 1], [env[n - 1]], names);
    NamedOne(env[n - 1], names);
  }

  /** Entries under other names survive one scan, in reverse order. */
  lemma {:induction false} OthersAreReversed(env: seq<string>, n: nat, key: string, value: string, overwrite: bool,
      found: bool, names: iset<string>)
    requires n <= |env| && '=' !in key && key !in names
    ensures Named(Scan(env, n, key, value, overwrite, found), names) == Reverse(Named(env[..n], names))
  {
    SplitEntry(key, value);
    if n == 0 {
      NamedOne(Entry(key, value), names);
    } else {
      var e := env[n - 1];
      NamedPrefix(env, n, names);
      ReverseJoin(Named(env[..n - 1], names), [e]);
      assert Reverse([e]) == [e];
      OthersAreReversed(env, n - 1, key, value, overwrite, found || Name(e) == key, names);
      NamedCons(e, Scan(env, n - 1, key, value, overwrite, found), names);
      NamedCons(if overwrite then Entry(key, value) else e, Scan(env, n - 1, key, value, overwrite, true), names);
    }
  }

  /** The last of the first `n` entries under that name, or the new one when there is none or it
      is to be overwritten. */
  ghost function Surviving(env: seq<string>, n: nat, key: string, value: string, overwrite: bool): string
    requires n <= |env|
  {
    var existing := Named(env[..n], iset{key});
    if existing == [] || overwrite then Entry(key, value) else existing[|existing| - 1]
  }

  /** After a scan there is exactly one entry under the key. */
  lemma {:induction false} KeyAppearsOnce(env: seq<string>, n: nat, key: string, value: string, overwrite: bool,
      found: bool)
    requires n <= |env| && '=' !in key
    ensures Named(Scan(env, n, key, value, overwrite, found), iset{key})
            == if found then [] else [Surviving(env, n, key, value, overwrite)]
  {
    SplitEntry(key, value);
    if n == 0 {
      NamedOne(Entry(key, value), iset{key});
    } else {
      var e := env[n - 1];
      NamedPrefix(env, n, iset{key});
      KeyAppearsOnce(env, n - 1, key, value, overwrite, found || Name(e) == key);
      NamedCons(e, Scan(env, n - 1, key, value, overwrite, found), iset{key});
      NamedCons(if overwrite then Entry(key, value) else e, Scan(env, n - 1, key, value, overwrite, true), iset{key});
    }
  }

  /** One call: the other entries come back reversed, the key's entry is unique. */
  lemma {:induction false} AddOnce(env: seq<string>, key: string, value: string, overwrite: bool, names: iset<string>)
    requires '=' !in key && key !in names
    ensures Named(Added(env, key, value, overwrite), names) == Reverse(Named(env, names))
    ensures Named(Added(env, key, value, overwrite), iset{key}) == [Surviving(env, |env|, key, value, overwrite)]
  {
    assert env[..|env|] == env;
    OthersAreReversed(env, |env|, key, value, overwrite, false, names);
    KeyAppearsOnce(env, |env|, key, value, overwrite, false);
  }

  /** A name that occurs once keeps its entry when another key is added. */
  lemma SingletonStays(list: seq<string>, key: string, value: string, overwrite: bool, k: string)
    requires '=' !in key && key != k && |Named(list, iset{k})| == 1
    ensures Named(Added(list, key, value, overwrite), iset{k}) == Named(list, iset{k})
  {
    AddOnce(list, key, value, overwrite, iset{k});
    var one := Named(list, iset{k});
    assert one == [one[0]] && Reverse([one[0]]) == [one[0]];
  }

  // ----- StartUnit: the spec's variables over the image's environment ------------------

  datatype EnvVar = EnvVar(name: string, value: string)

  function AppEnvOf(vars: seq<EnvVar>): (e: seq<string>)
    ensures |e| == |vars| && forall i :: 0 <= i < |e| ==> e[i] == Entry(vars[i].name, vars[i].value) && '=' in e[i]
  {
    if vars == [] then [] else [Entry(vars[0].name, vars[0].value)] + AppEnvOf(vars[1..])
  }

  method MakeAppEnv(vars: seq<EnvVar>) returns (e: seq<string>)
    ensures e == AppEnvOf(vars)
  {
    e := [];
    for i := 0 to |vars|
      invariant |e| == i && forall k :: 0 <= k < i ==> e[k] == Entry(vars[k].name, vars[k].value)
    {
      e := e + [Entry(vars[i].name, vars[i].value)];
    }
  }

  function Merged(env: seq<string>, appenv: seq<string>): seq<string>
    requires forall e :: e in appenv ==> '=' in e
  {
    if appenv == [] then env
    else
      var n := |appenv| - 1;
      assert appenv[n] in appenv && forall e :: e in appenv[..n] ==> e in appenv;
      Added(Merged(env, appenv[..n]), Name(appenv[n]), Value(appenv[n]), true)
  }

  /** The environment fold of StartUnit; an entry without '=' would make the source panic. */
  method MergeEnv(imageEnv: seq<string>, appenv: seq<string>) returns (env: seq<string>)
    requires forall e :: e in appenv ==> '=' in e
    ensures env == Merged(imageEnv, appenv)
  {
    env := imageEnv;
    for i := 0 to |appenv|
      invariant forall e :: e in appenv[..i] ==> '=' in e
      invariant env == Merged(imageEnv, appenv[..i])
    {
      assert appenv[..i + 1][..i] == appenv[..i] && appenv[i] in appenv;
      assert forall e :: e in appenv[..i + 1] ==> e in appenv;
      env := AddToEnvList(env, Name(appenv[i]), Value(appenv[i]), true);
    }
    assert appenv[..|appenv|] == appenv;
  }

  function Turned(s: seq<string>, times: nat): seq<string> {
    if times % 2 == 0 then s else Reverse(s)
  }

  lemma TurnOnce(s: seq<string>, times: nat)
    ensures Reverse(Turned(s, times)) == Turned(s, times + 1)
  {
    ReverseTwice(s);
  }

  lemma MergeOneMore(env: seq<string>, appenv: seq<string>, names: iset<string>)
    requires appenv != [] && forall e :: e in appenv ==> '=' in e && Name(e) !in names
    ensures forall e :: e in appenv[..|appenv| - 1] ==> e in appenv
    ensures Named(Merged(env, appenv), names) == Reverse(Named(Merged(env, appenv[..|appenv| - 1]), names))
  {
    var last := appenv[|appenv| - 1];
    assert last in appenv && forall e :: e in appenv[..|appenv| - 1] ==> e in appenv;
    NameHasNoSign(last);
    AddOnce(Merged(env, appenv[..|appenv| - 1]), Name(last), Value(last), true, names);
  }

  /** Image entries under names the spec does not set all survive: in their original order after
      an even number of variables, reversed after an odd number. */
  lemma {:induction false} MergeKeepsOthers(env: seq<string>, appenv: seq<string>, names: iset<string>)
    requires forall e :: e in appenv ==> '=' in e && Name(e) !in names
    ensures Named(Merged(env, appenv), names) == Turned(Named(env, names), |appenv|)
  {
    if appenv != [] {
      MergeOneMore(env, appenv, names);
      MergeKeepsOthers(env, appenv[..|appenv| - 1], names);
      TurnOnce(Named(env, names), |appenv| - 1);
    }
  }

  /** Every name the spec sets appears exactly once, with the last value the spec gives it. */
  lemma {:induction false} MergeSetsEachNameOnce(env: seq<string>, appenv: seq<string>, i: nat)
    requires i < |appenv| && forall e :: e in appenv ==> '=' in e
    requires forall j :: i < j < |appenv| ==> Name(appenv[j]) != Name(appenv[i])
    ensures Named(Merged(env, appenv), iset{Name(appenv[i])}) == [appenv[i]]
  {
    var n := |appenv| - 1;
    var before, last := Merged(env, appenv[..n]), appenv[n];
    assert last in appenv && forall e :: e in appenv[..n] ==> e in appenv;
    NameHasNoSign(last);
    if i == n {
      AddOnce(before, Name(last), Value(last), true, iset{});
      RejoinEntry(last);
    } else {
      MergeSetsEachNameOnce(env, appenv[..n], i);
      SingletonStays(before, Name(last), Value(last), true, Name(appenv[i]));
    }
  }

  /** For spec variables whose names contain no '=': a name's last variable decides its one entry. */
  lemma SpecVariableWins(env: seq<string>, vars: seq<EnvVar>, i: nat)
    requires i < |vars| && forall v :: v in vars ==> '=' !in v.name
    requires forall j :: i < j < |vars| ==> vars[j].name != vars[i].name
    ensures Named(Merged(env, AppEnvOf(vars)), iset{vars[i].name}) == [Entry(vars[i].name, vars[i].value)]
  {
    forall j | 0 <= j < |vars|
      ensures Name(AppEnvOf(vars)[j]) == vars[j].name
    {
      assert vars[j] in vars;
      SplitEntry(vars[j].name, vars[j].value);
    }
    MergeSetsEachNameOnce(env, AppEnvOf(vars), i);
  }

  // ----- EnsureDefaultEnviron ----------------------------------------------------------

  const MAXIMUM_HOSTNAME_LENGTH := 63
  const DEFAULT_PATH := "/usr/local/sbin:/usr/local/bin:/usr/sbin:/usr/bin:/sbin:/bin"

  /** The part of a pod name behind its first '_', or all of it when there is none. */
  function NameFromString(n: string): string {
    if '_' in n then (if n[0] == '_' then n[1..] else NameFromString(n[1..])) else n
  }

  function MakeHostname(podname: string): string {
    var name := NameFromString(podname);
    if |name| > MAXIMUM_HOSTNAME_LENGTH then name[..MAXIMUM_HOSTNAME_LENGTH] else name
  }

  lemma {:induction false} NameIsBehindFirst(n: string)
    ensures '_' !in n ==> NameFromString(n) == n
    ensures '_' in n ==> exists before :: '_' !in before && n == before + "_" + NameFromString(n)
  {
    if '_' in n {
      if n[0] == '_' {
        assert n == "" + "_" + NameFromString(n);
      } else {
        NameIsBehindFirst(n[1..]);
        var before :| '_' !in before && n[1..] == before + "_" + NameFromString(n[1..]);
        assert n == ([n[0]] + before) + "_" + NameFromString(n) && '_' !in [n[0]] + before;
      }
    }
  }

  /** The host name is the pod name, or the part of it behind the first '_', up to 63 characters. */
  lemma HostnameIsShortName(podname: string)
    ensures var name := NameFromString(podname); var h := MakeHostname(podname);
            && |h| <= 63 && h <= name && (h == name || |h| == 63)
            && ('_' !in podname ==> name == podname)
            && ('_' in podname ==> exists before :: '_' !in before && podname == before + "_" + name)
  {
    NameIsBehindFirst(podname);
  }

  function EnsureDefaultEnviron(env: seq<string>, podname: string, homedir: string): seq<string> {
    var e1 := Added(env, "HOSTNAME", MakeHostname(podname), true);
    var e2 := Added(e1, "TERM", "xterm", false);
    var e3 := Added(e2, "HOME", homedir, false);
    Added(e3, "PATH", DEFAULT_PATH, false)
  }

  /** An existing entry survives a call that does not overwrite: the last one under its name after
      an even number of earlier calls, and, since each call reverses the list, the first one after
      an odd number. A missing entry gets the default. */
  ghost function Kept(env: seq<string>, key: string, value: string, turns: nat): string {
    var existing := Named(env, iset{key});
    if existing == [] then Entry(key, value)
    else if turns % 2 == 0 then existing[|existing| - 1]
    else existing[0]
  }

  lemma {:induction false} LastOfReverse(s: seq<string>)
    requires s != []
    ensures Reverse(s) != [] && Reverse(s)[|s| - 1] == s[0]
  {
  }

  /** Adding `key` without overwriting to a list whose entries of that name are those of `env`,
      turned `turns` times. */
  lemma AddAfterTurns(env: seq<string>, list: seq<string>, key: string, value: string, turns: nat)
    requires '=' !in key && Named(list, iset{key}) == Turned(Named(env, iset{key}), turns)
    ensures Named(Added(list, key, value, false), iset{key}) == [Kept(env, key, value, turns)]
  {
    AddOnce(list, key, value, false, iset{});
    assert list[..|list|] == list;
    var existing := Named(env, iset{key});
    if existing != [] {
      LastOfReverse(existing);
    }
  }

  /** One call with an overwrite followed by three without, under four different keys. */
  lemma FourAdds(
      env: seq<string>, k1: string, v1: string, k2: string, v2: string, k3: string, v3: string, k4: string, v4: string,
      names: iset<string>)
    requires '=' !in k1 && '=' !in k2 && '=' !in k3 && '=' !in k4
    requires k1 !in {k2, k3, k4} && k2 !in {k3, k4} && k3 != k4
    requires k1 !in names && k2 !in names && k3 !in names && k4 !in names
    ensures var r := Added(Added(Added(Added(env, k1, v1, true), k2, v2, false), k3, v3, false), k4, v4, false);
            && Named(r, names) == Named(env, names)
            && Named(r, iset{k1}) == [Entry(k1, v1)]
            && Named(r, iset{k2}) == [Kept(env, k2, v2, 1)]
            && Named(r, iset{k3}) == [Kept(env, k3, v3, 2)]
            && Named(r, iset{k4}) == [Kept(env, k4, v4, 3)]
  {
    var e1 := Added(env, k1, v1, true);
    var e2 := Added(e1, k2, v2, false);
    var e3 := Added(e2, k3, v3, false);
    var e4 := Added(e3, k4, v4, false);
    assert Named(e4, names) == Named(env, names) by {
      AddOnce(env, k1, v1, true, names);
      AddOnce(e1, k2, v2, false, names);
      AddOnce(e2, k3, v3, false, names);
      AddOnce(e3, k4, v4, false, names);
      ReverseTwice(Named(env, names));
    }
    assert Named(e4, iset{k1}) == [Entry(k1, v1)] by {
      AddOnce(env, k1, v1, true, iset{});
      SingletonStays(e1, k2, v2, false, k1);
      SingletonStays(e2, k3, v3, false, k1);
      SingletonStays(e3, k4, v4, false, k1);
    }
    assert Named(e4, iset{k2}) == [Kept(env, k2, v2, 1)] by {
      AddOnce(env, k1, v1, true, iset{k2});
      AddAfterTurns(env, e1, k2, v2, 1);
      SingletonStays(e2, k3, v3, false, k2);
      SingletonStays(e3, k4, v4, false, k2);
    }
    assert Named(e4, iset{k3}) == [Kept(env, k3, v3, 2)] by {
      AddOnce(env, k1, v1, true, iset{k3});
      AddOnce(e1, k2, v2, false, iset{k3});
      ReverseTwice(Named(env, iset{k3}));
      AddAfterTurns(env, e2, k3, v3, 2);
      SingletonStays(e3, k4, v4, false, k3);
    }
    assert Named(e4, iset{k4}) == [Kept(env, k4, v4, 3)] by {
      AddOnce(env, k1, v1, true, iset{k4});
      AddOnce(e1, k2, v2, false, iset{k4});
      AddOnce(e2, k3, v3, false, iset{k4});
      ReverseTwice(Named(env, iset{k4}));
      AddAfterTurns(env, e3, k4, v4, 3);
    }
  }

  /** Each of the four names appears exactly once. HOSTNAME is set to the pod's name; the other
      three keep an entry they had - TERM and PATH the first of several, HOME the last - or get the
      default. All other entries stay exactly as they were, order included. */
  lemma DefaultEnvironment(env: seq<string>, podname: string, homedir: string, names: iset<string>)
    requires "HOSTNAME" !in names && "TERM" !in names && "HOME" !in names && "PATH" !in names
    ensures var r := EnsureDefaultEnviron(env, podname, homedir);
            && Named(r, names) == Named(env, names)
            && Named(r, iset{"HOSTNAME"}) == [Entry("HOSTNAME", MakeHostname(podname))]
            && (var terms := Named(env, iset{"TERM"});
                Named(r, iset{"TERM"}) == [if terms == [] then "TERM=xterm" else terms[0]])
            && (var homes := Named(env, iset{"HOME"});
                Named(r, iset{"HOME"}) == [if homes == [] then "HOME=" + homedir else homes[|homes| - 1]])
            && (var paths := Named(env, iset{"PATH"});
                Named(r, iset{"PATH"}) == [if paths == [] then "PATH=" + DEFAULT_PATH else paths[0]])
  {
    assert Entry("TERM", "xterm") == "TERM=xterm" && Entry("HOME", homedir) == "HOME=" + homedir;
    assert Entry("PATH", DEFAULT_PATH) == "PATH=" + DEFAULT_PATH;
    FourAdds(env, "HOSTNAME", MakeHostname(podname), "TERM", "xterm", "HOME", homedir, "PATH", DEFAULT_PATH, names);
  }

  /** For instance, of two TERM entries the chain keeps the first, although a single call would keep
      the last. */
  lemma TermKeepsFirst(a: string, b: string, podname: string, homedir: string)
    ensures var env := [Entry("TERM", a), Entry("TERM", b)];
            && Named(EnsureDefaultEnviron(env, podname, homedir), iset{"TERM"}) == [Entry("TERM", a)]
            && Named(Added(env, "TERM", "xterm", false), iset{"TERM"}) == [Entry("TERM", b)]
  {
    var env := [Entry("TERM", a), Entry("TERM", b)];
    SplitEntry("TERM", a);
    SplitEntry("TERM", b);
    NamedOne(Entry("TERM", b), iset{"TERM"});
    assert env == [Entry("TERM", a)] + [Entry("TERM", b)];
    NamedCons(Entry("TERM", a), [Entry("TERM", b)], iset{"TERM"});
    DefaultEnvironment(env, podname, homedir, iset{});
    AddOnce(env, "TERM", "xterm", false, iset{});
    assert env[..|env|] == env;
  }
}
