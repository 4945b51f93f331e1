/** Pinning a loaded object's maps and programs into the BPF file system, with rollback.

    The kernel may refuse any pin or directory for reasons of its own: `fault` says, for
    every such call in turn, with which error it fails (0 for none).  Pinning refuses a path
    that is taken.  Removing a pin that is there succeeds. */
module Pinning {
  import opened Common

  const PATH_MAX := 4096

  datatype Prog = Prog(pinName: string, instances: int)
  datatype Object = Object(loaded: bool, maps: seq<string>, progs: seq<Prog>)

  function Join(path: string, name: string): string {
    path + "/" + name
  }

  function Decimal(n: nat): string {
    var digit := [('0' as int + n % 10) as char];
    if n < 10 then digit else Decimal(n / 10) + digit
  }

  /** The number that digits spell. */
  function ValueOf(s: string): int {
    if s == [] then 0 else 10 * ValueOf(s[..|s| - 1]) + (s[|s| - 1] as int - '0' as int)
  }

  predicate IsDigits(s: string) {
    forall i :: 0 <= i < |s| ==> '0' <= s[i] <= '9'
  }

  /** Numbers are spelled in digits, without leading zeros. */
  lemma {:induction false} DecimalSpells(n: nat)
    ensures ValueOf(Decimal(n)) == n && IsDigits(Decimal(n)) && |Decimal(n)| > 0
    ensures |Decimal(n)| > 1 ==> Decimal(n)[0] != '0'
    decreases n
  {
    var digit := [('0' as int + n % 10) as char];
    if n >= 10 {
      DecimalSpells(n / 10);
      assert (Decimal(n / 10) + digit)[..|Decimal(n / 10)|] == Decimal(n / 10);
      if |Decimal(n / 10)| == 1 {
        assert ValueOf(Decimal(n / 10)) == Decimal(n / 10)[0] as int - '0' as int;
      }
    }
  }

  /** Names are joined with a slash, instances are numbered from zero under the program's path,
      and no two of them share a path. */
  lemma PathsAre(prog: Prog, path: string, i: nat, j: nat)
    requires prog.instances > 1 && i < prog.instances && j < prog.instances
    ensures ProgPaths(prog, path)[i] == path + "/" + Decimal(i)
    ensures ProgPaths(prog, path)[i] == ProgPaths(prog, path)[j] <==> i == j
  {
    DecimalSpells(i);
    DecimalSpells(j);
    var p := path + "/";
    assert (p + Decimal(i))[|p|..] == Decimal(i) && (p + Decimal(j))[|p|..] == Decimal(j);
  }

  lemma NamesAre(maps: seq<string>, path: string, i: nat)
    requires i < |maps|
    ensures MapPaths(maps, path)[i] == path + "/" + maps[i] && (Fits(path) <==> |path| <= 4095)
  {
  }

  /** `p` is the program's name below `path`, or an instance below that if there are more. */
  predicate IsProgPath(prog: Prog, path: string, p: string) {
    if prog.instances == 1 then p == path + "/" + prog.pinName
    else exists i: nat :: i < prog.instances && p == path + "/" + prog.pinName + "/" + Decimal(i)
  }

  lemma ProgPathsAre(prog: Prog, path: string, p: string)
    ensures p in ProgPaths(prog, Join(path, prog.pinName)) <==> IsProgPath(prog, path, p)
  {
    var ps := ProgPaths(prog, Join(path, prog.pinName));
    if prog.instances > 1 && IsProgPath(prog, path, p) {
      var i: nat :| i < prog.instances && p == path + "/" + prog.pinName + "/" + Decimal(i);
      assert ps[i] == p;
    }
  }

  /** Every program is pinned below its own name, and nothing else is pinned for them. */
  lemma {:induction false} AllProgPathsAre(progs: seq<Prog>, path: string, p: string)
    ensures p in AllProgPaths(progs, path) <==> exists k :: 0 <= k < |progs| && IsProgPath(progs[k], path, p)
    decreases |progs|
  {
    hide Decimal, ProgPaths, IsProgPath;
    if progs != [] {
      var n := |progs| - 1;
      AllProgPathsAre(progs[..n], path, p);
      ProgPathsAre(progs[n], path, p);
      assert forall k :: 0 <= k < n ==> progs[..n][k] == progs[k];
    }
  }

  function SetOf(s: seq<string>): set<string> {
    set x | x in s
  }

  /** `now` is `before` with exactly `paths` added, all new and all different. */
  ghost predicate Added(before: set<string>, now: set<string>, paths: seq<string>) {
    now == before + SetOf(paths) && Free(before, paths)
  }

  /** None of the paths is taken, and none comes twice. */
  ghost predicate Free(before: set<string>, paths: seq<string>) {
    && (forall i :: 0 <= i < |paths| ==> paths[i] !in before)
    && (forall i, j :: 0 <= i < j < |paths| ==> paths[i] != paths[j])
  }

  lemma FreeNext(before: set<string>, now: set<string>, paths: seq<string>, i: nat)
    requires i < |paths| && Free(before, paths) && Added(before, now, paths[..i])
    ensures paths[i] !in now
  {
  }

  lemma FreeRest(before: set<string>, mid: set<string>, a: seq<string>, b: seq<string>)
    requires Free(before, a + b) && Added(before, mid, a)
    ensures Free(mid, b)
  {
    var ab := a + b;
    assert forall i :: 0 <= i < |b| ==> b[i] == ab[|a| + i];
    assert forall i :: 0 <= i < |a| ==> a[i] == ab[i];
  }

  lemma FreePrefix(before: set<string>, a: seq<string>, b: seq<string>)
    requires Free(before, a + b)
    ensures Free(before, a)
  {
    assert forall i :: 0 <= i < |a| ==> a[i] == (a + b)[i];
  }

  lemma AddedOne(before: set<string>, now: set<string>, paths: seq<string>, p: string)
    requires Added(before, now, paths) && p !in now
    ensures Added(before, now + {p}, paths + [p])
  {
  }

  /** Additions compose, and can be taken apart again. */
  lemma AddedSplit(before: set<string>, now: set<string>, a: seq<string>, b: seq<string>)
    requires Added(before, now, a + b)
    ensures Added(before, before + SetOf(a), a) && Added(before + SetOf(a), now, b)
  {
    var ab := a + b;
    assert SetOf(ab) == SetOf(a) + SetOf(b);
    assert forall i :: 0 <= i < |a| ==> a[i] == ab[i];
    forall i | 0 <= i < |b| ensures b[i] !in before + SetOf(a) {
      assert b[i] == ab[|a| + i] && forall j :: 0 <= j < |a| ==> ab[j] != ab[|a| + i];
    }
    forall i, j | 0 <= i < j < |b| ensures b[i] != b[j] {
      assert ab[|a| + i] != ab[|a| + j];
    }
  }

  lemma AddedJoin(before: set<string>, mid: set<string>, now: set<string>, a: seq<string>, b: seq<string>)
    requires Added(before, mid, a) && Added(mid, now, b)
    ensures Added(before, now, a + b)
  {
  }

  /** The paths that pinning one program takes. */
  function ProgPaths(prog: Prog, path: string): (r: seq<string>)
    ensures prog.instances == 1 ==> r == [path]
    ensures prog.instances > 1 ==> |r| == prog.instances && forall i :: 0 <= i < |r| ==> r[i] == Join(path, Decimal(i))
  {
    if prog.instances <= 0 then []
    else if prog.instances == 1 then [path]
    else seq(prog.instances, i requires 0 <= i < prog.instances => Join(path, Decimal(i)))
  }

  function MapPaths(maps: seq<string>, path: string): (r: seq<string>)
    ensures |r| == |maps| && forall i :: 0 <= i < |r| ==> r[i] == Join(path, maps[i])
  {
    seq(|maps|, i requires 0 <= i < |maps| => Join(path, maps[i]))
  }

  function AllProgPaths(progs: seq<Prog>, path: string): seq<string> {
    if progs == [] then []
    else AllProgPaths(progs[..|progs| - 1], path)
         + ProgPaths(progs[|progs| - 1], Join(path, progs[|progs| - 1].pinName))
  }

  predicate Fits(path: string) {
    |path| < PATH_MAX
  }

  predicate AllFit(paths: seq<string>) {
    forall i :: 0 <= i < |paths| ==> Fits(paths[i])
  }

  /** A single instance is pinned at the path itself, whose length the caller has checked. */
  predicate ProgFits(prog: Prog, path: string) {
    prog.instances > 1 ==> AllFit(ProgPaths(prog, path))
  }

  /** Nothing about the program itself keeps it from being pinned at `path`. */
  predicate ProgOk(prog: Prog, path: string) {
    prog.instances > 0 && Fits(path) && ProgFits(prog, path)
  }

  predicate ProgsOk(progs: seq<Prog>, path: string) {
    forall k :: 0 <= k < |progs| ==> ProgOk(progs[k], Join(path, progs[k].pinName))
  }

  class BpfFs {
    var pinned: set<string>
    var calls: nat
    const fault: nat -> int

    constructor (pinned: set<string>, fault: nat -> int)
      ensures this.pinned == pinned && this.fault == fault
    {
      this.pinned, this.fault, calls := pinned, fault, 0;
    }

    /** The kernel refuses nothing of its own accord. */
    ghost predicate Quiet() {
      forall n :: fault(n) == 0
    }

    /** `check_path` and `bpf_obj_pin`. */
    method Pin(path: string) returns (err: int)
      modifies this
      ensures Quiet() && path !in old(pinned) ==> err == 0
      ensures err == 0 ==> path !in old(pinned) && pinned == old(pinned) + {path}
      ensures err != 0 ==> pinned == old(pinned)
      ensures path in old(pinned) ==> err != 0
    {
      var f := fault(calls);
      calls := calls + 1;
      if f != 0 {
        return f;
      }
      if path in pinned {
        return -EEXIST;
      }
      pinned := pinned + {path};
      return 0;
    }

    method MakeDir(path: string) returns (err: int)
      modifies this
      ensures pinned == old(pinned) && (Quiet() ==> err == 0)
    {
      err := fault(calls);
      calls := calls + 1;
    }

    /** `bpf_map__unpin` and `bpf_program__unpin_instance`. */
    method Unpin(path: string) returns (err: int)
      modifies this
      ensures err == if path in old(pinned) then 0 else -ENOENT
      ensures pinned == old(pinned) - {path}
    {
      if path !in pinned {
        return -ENOENT;
      }
      pinned := pinned - {path};
      return 0;
    }

    /** Removes pins from the last to the first, as every rollback does. */
    method UnpinBackwards(paths: seq<string>, ghost before: set<string>)
      requires Added(before, pinned, paths)
      modifies this
      ensures pinned == before
    {
      var i := |paths|;
      while i > 0
        invariant 0 <= i <= |paths| && Added(before, pinned, paths[..i])
      {
        i := i - 1;
        assert paths[..i + 1] == paths[..i] + [paths[i]];
        AddedSplit(before, pinned, paths[..i], [paths[i]]);
        var _ := Unpin(paths[i]);
        assert pinned == before + SetOf(paths[..i]);
      }
    }

    /** `bpf_program__pin`. */
    method PinProgram(prog: Prog, path: string) returns (err: int)
      modifies this
      ensures err == 0 ==>
                prog.instances > 0 && ProgFits(prog, path) && Added(old(pinned), pinned, ProgPaths(prog, path))
      ensures err != 0 ==> pinned == old(pinned)
      ensures Quiet() && prog.instances > 0 && ProgFits(prog, path) && Free(old(pinned), ProgPaths(prog, path)) ==>
                err == 0
    {
      hide Added, Quiet;
      if prog.instances <= 0 {
        return -EINVAL;
      }
      if prog.instances == 1 {
        assert ProgPaths(prog, path)[0] == path;
        err := Pin(path);
        if err == 0 {
          AddedSingle(old(pinned), path);
        }
        return;
      }
      err := MakeDir(path);
      if err != 0 {
        return;
      }
      err := PinAll(ProgPaths(prog, path));
    }

    /** Pins paths one after the other; at the first failure, what was pinned is removed. */
    method PinAll(paths: seq<string>) returns (err: int)
      modifies this
      ensures err == 0 ==> Added(old(pinned), pinned, paths) && AllFit(paths)
      ensures err != 0 ==> pinned == old(pinned)
      ensures Quiet() && AllFit(paths) && Free(old(pinned), paths) ==> err == 0
    {
      hide Added, Fits, Quiet, Free;
      AddedNothing(old(pinned));
      err := 0;
      var i := 0;
      while i < |paths|
        invariant 0 <= i <= |paths| && err == 0 && Added(old(pinned), pinned, paths[..i])
        invariant forall k :: 0 <= k < i ==> Fits(paths[k])
      {
        if !Fits(paths[i]) {
          err := -ENAMETOOLONG;
          break;
        }
        ghost var now := pinned;
        if Free(old(pinned), paths) {
          FreeNext(old(pinned), pinned, paths, i);
        }
        err := Pin(paths[i]);
        if err != 0 {
          break;
        }
        AddedOne(old(pinned), now, paths[..i], paths[i]);
        assert paths[..i + 1] == paths[..i] + [paths[i]];
        i := i + 1;
      }
      if err != 0 {
        UnpinBackwards(paths[..i], old(pinned));
      } else {
        assert paths[..i] == paths;
      }
    }

    /** Removes pins from the first to the last, giving up at the first error. */
    method UnpinForwards(paths: seq<string>, ghost before: set<string>) returns (err: int)
      modifies this
      ensures Added(before, old(pinned), paths) && AllFit(paths) ==> err == 0 && pinned == before
      ensures pinned <= old(pinned)
    {
      hide Added;
      err := 0;
      assert paths[0..] == paths;
      ghost var ours := Added(before, pinned, paths) && AllFit(paths);
      var i := 0;
      while i < |paths|
        invariant 0 <= i <= |paths| && err == 0 && pinned <= old(pinned)
        invariant ours ==> AllFit(paths) && Added(before, pinned, paths[i..])
      {
        if !Fits(paths[i]) {
          return -ENAMETOOLONG;
        }
        if ours {
          AddedFirst(before, pinned, paths[i..]);
        }
        err := Unpin(paths[i]);
        if err != 0 {
          return;
        }
        assert paths[i..][1..] == paths[i + 1..];
        i := i + 1;
      }
      if ours {
        AddedNone(before, pinned, paths[i..]);
      }
    }

    /** `bpf_program__unpin`; it undoes a pin of the same program at the same path. */
    method UnpinProgram(prog: Prog, path: string, ghost before: set<string>) returns (err: int)
      modifies this
      ensures prog.instances <= 0 ==> err == -EINVAL && pinned == old(pinned)
      ensures prog.instances > 0 && ProgFits(prog, path) && Added(before, old(pinned), ProgPaths(prog, path)) ==>
                err == 0 && pinned == before
    {
      hide Added, Fits;
      if prog.instances <= 0 {
        return -EINVAL;
      }
      if prog.instances == 1 {
        if Added(before, pinned, [path]) {
          AddedFirst(before, pinned, [path]);
          AddedNone(before, pinned - {path}, [path][1..]);
        }
        err := Unpin(path);
        return;
      }
      err := UnpinForwards(ProgPaths(prog, path), before);
    }

    /** `bpf_object__pin_maps`. */
    method PinMaps(obj: Object, path: string) returns (err: int)
      modifies this
      ensures err == 0 ==> Added(old(pinned), pinned, MapPaths(obj.maps, path)) && AllFit(MapPaths(obj.maps, path))
      ensures err != 0 ==> pinned == old(pinned)
      ensures Quiet() && obj.loaded && AllFit(MapPaths(obj.maps, path)) ==>
                Free(old(pinned), MapPaths(obj.maps, path)) ==> err == 0
    {
      hide Added, Quiet, Free, AllFit;
      if !obj.loaded {
        return -ENOENT;
      }
      err := MakeDir(path);
      if err != 0 {
        return;
      }
      err := PinAll(MapPaths(obj.maps, path));
    }

    /** `bpf_object__pin_programs`. */
    method PinPrograms(obj: Object, path: string) returns (err: int)
      modifies this
      ensures err == 0 ==> Added(old(pinned), pinned, AllProgPaths(obj.progs, path))
      ensures err != 0 ==> pinned == old(pinned)
      ensures Quiet() && obj.loaded && ProgsOk(obj.progs, path) ==>
                Free(old(pinned), AllProgPaths(obj.progs, path)) ==> err == 0
    {
      hide Added, Fits, AllProgPaths, ProgPaths, SetOf, Join, ProgFits, Quiet, Free;
      if !obj.loaded {
        return -ENOENT;
      }
      err := MakeDir(path);
      if err != 0 {
        return;
      }
      NoProgs(path);
      AddedNothing(old(pinned));
      assert obj.progs[..0] == [];
      var i := 0;
      while i < |obj.progs|
        invariant 0 <= i <= |obj.progs| && err == 0
        invariant Added(old(pinned), pinned, AllProgPaths(obj.progs[..i], path))
        invariant forall k :: 0 <= k < i ==>
                    obj.progs[k].instances > 0 && ProgFits(obj.progs[k], Join(path, obj.progs[k].pinName))
      {
        var buf := Join(path, obj.progs[i].pinName);
        if !Fits(buf) {
          err := -ENAMETOOLONG;
          break;
        }
        ghost var mid := pinned;
        if Free(old(pinned), AllProgPaths(obj.progs, path)) {
          FreeProg(old(pinned), mid, obj.progs, i, path);
        }
        err := PinProgram(obj.progs[i], buf);
        if err != 0 {
          break;
        }
        AddedJoin(old(pinned), mid, pinned, AllProgPaths(obj.progs[..i], path), ProgPaths(obj.progs[i], buf));
        OneMoreProg(obj.progs, i, path);
        i := i + 1;
      }
      if err == 0 {
        assert obj.progs[..i] == obj.progs;
        return;
      }
      UnpinProgramsBackwards(obj.progs[..i], path, old(pinned));
    }

    /** The rollback of `bpf_object__pin_programs`. */
    method UnpinProgramsBackwards(progs: seq<Prog>, path: string, ghost before: set<string>)
      requires Added(before, pinned, AllProgPaths(progs, path))
      requires forall k :: 0 <= k < |progs| ==>
                 progs[k].instances > 0 && ProgFits(progs[k], Join(path, progs[k].pinName))
      modifies this
      ensures pinned == before
    {
      hide Added, AllProgPaths, ProgPaths, SetOf, Join, ProgFits;
      NoProgs(path);
      assert progs[..|progs|] == progs;
      var i := |progs|;
      while i > 0
        invariant 0 <= i <= |progs| && Added(before, pinned, AllProgPaths(progs[..i], path))
      {
        i := i - 1;
        OneMoreProg(progs, i, path);
        var buf := Join(path, progs[i].pinName);
        ghost var rest := AllProgPaths(progs[..i], path);
        AddedSplit(before, pinned, rest, ProgPaths(progs[i], buf));
        var _ := UnpinProgram(progs[i], buf, before + SetOf(rest));
      }
      assert progs[..0] == [];
      AddedNone(before, pinned, AllProgPaths([], path));
    }

    /** `bpf_object__pin`: all of the object is pinned, or nothing is. */
    method PinObject(obj: Object, path: string) returns (err: int)
      modifies this
      ensures err == 0 ==> Added(old(pinned), pinned, MapPaths(obj.maps, path) + AllProgPaths(obj.progs, path))
      ensures err != 0 ==> pinned == old(pinned)
      ensures Quiet() && obj.loaded && AllFit(MapPaths(obj.maps, path)) && ProgsOk(obj.progs, path) ==>
                Free(old(pinned), MapPaths(obj.maps, path) + AllProgPaths(obj.progs, path)) ==> err == 0
    {
      hide Added, Quiet, Free, AllFit, ProgsOk;
      ghost var maps, progs := MapPaths(obj.maps, path), AllProgPaths(obj.progs, path);
      if Free(pinned, maps + progs) {
        FreePrefix(pinned, maps, progs);
      }
      err := PinMaps(obj, path);
      if err != 0 {
        return;
      }
      ghost var mid := pinned;
      if Free(old(pinned), maps + progs) {
        FreeRest(old(pinned), mid, maps, progs);
      }
      err := PinPrograms(obj, path);
      if err != 0 {
        var _ := UnpinForwards(MapPaths(obj.maps, path), old(pinned));
        return;
      }
      AddedJoin(old(pinned), mid, pinned, MapPaths(obj.maps, path), AllProgPaths(obj.progs, path));
    }
  }

  lemma AddedNothing(before: set<string>)
    ensures Added(before, before, [])
  {
  }

  lemma AddedNone(before: set<string>, now: set<string>, paths: seq<string>)
    requires Added(before, now, paths) && paths == []
    ensures now == before
  {
  }

  lemma AddedSingle(before: set<string>, p: string)
    requires p !in before
    ensures Added(before, before + {p}, [p])
  {
  }

  lemma AddedFirst(before: set<string>, now: set<string>, paths: seq<string>)
    requires Added(before, now, paths) && paths != []
    ensures paths[0] in now && Added(before, now - {paths[0]}, paths[1..])
  {
  }

  /** The paths of the next program are free while those before it are taken. */
  lemma FreeProg(before: set<string>, mid: set<string>, progs: seq<Prog>, i: nat, path: string)
    requires i < |progs| && Free(before, AllProgPaths(progs, path))
    requires Added(before, mid, AllProgPaths(progs[..i], path))
    ensures Free(mid, ProgPaths(progs[i], Join(path, progs[i].pinName)))
  {
    hide Added, Free, ProgPaths, Join, AllProgPaths;
    FreeSome(before, progs, i + 1, path);
    OneMoreProg(progs, i, path);
    FreeRest(before, mid, AllProgPaths(progs[..i], path), ProgPaths(progs[i], Join(path, progs[i].pinName)));
  }

  lemma {:induction false} FreeSome(before: set<string>, progs: seq<Prog>, n: nat, path: string)
    requires n <= |progs| && Free(before, AllProgPaths(progs, path))
    ensures Free(before, AllProgPaths(progs[..n], path))
    decreases |progs|
  {
    hide Free, ProgPaths, Join, AllProgPaths;
    if n == |progs| {
      assert progs[..n] == progs;
    } else {
      var m := |progs| - 1;
      OneMoreProg(progs, m, path);
      assert progs[..m + 1] == progs;
      FreePrefix(before, AllProgPaths(progs[..m], path), ProgPaths(progs[m], Join(path, progs[m].pinName)));
      FreeSome(before, progs[..m], n, path);
      assert progs[..m][..n] == progs[..n];
    }
  }

  lemma NoProgs(path: string)
    ensures AllProgPaths([], path) == []
  {
  }

  lemma OneMoreProg(progs: seq<Prog>, i: nat, path: string)
    requires i < |progs|
    ensures AllProgPaths(progs[..i + 1], path) ==
            AllProgPaths(progs[..i], path) + ProgPaths(progs[i], Join(path, progs[i].pinName))
  {
    assert progs[..i + 1][..i] == progs[..i];
  }
}
