/**
  Path-prefix handling of the VFS registry (src/rp2_common/pico_vfs/vfs.c):
  the shape a mount prefix must have, longest-prefix routing of a path to a
  registry slot, and the stripping of the matched prefix.

  The registry is seen here as the sequence of its first `s_vfs_count` slots,
  each NULL (`None`) or holding the prefix of its entry.
*/
module VfsPath {
  import opened Common

  /** `ESP_VFS_PATH_MAX`: the longest accepted prefix. */
  const PathMax: nat := 16

  /** newlib's `EINVAL`. */
  const EINVAL: int := 22

  /**
    The prefix of a mount entry. `Ignored` is the entry registered for a
    descriptor range only, whose prefix length is the sentinel `SIZE_MAX`
    (`LEN_PATH_PREFIX_IGNORED`) and which no path ever reaches.
  */
  datatype Prefix = Ignored | Path(p: string)

  predicate IsPrefix(p: string, path: string)
  {
    |p| <= |path| && path[..|p|] == p
  }

  /** The prefix tests of `pico_vfs_register_common`, in the order written: 0 or EINVAL. */
  function CheckPrefix(p: string): (err: int)
    ensures err == 0 || err == EINVAL
    ensures err == 0 <==> p == [] || (2 <= |p| <= PathMax && p[0] == '/' && p[|p| - 1] != '/')
  {
    var len := |p|;
    if (len != 0 && len < 2) || len > PathMax then EINVAL
    else if (len > 0 && p[0] != '/') || (len > 0 && p[len - 1] == '/') then EINVAL
    else 0
  }

  /** Every prefix a registry entry can hold. */
  predicate WellShaped(x: Prefix)
  {
    x.Ignored? || CheckPrefix(x.p) == 0
  }

  /** Length of the prefix of a path-matchable slot (0 for the others). */
  function PrefixLen(slot: Option<Prefix>): nat
  {
    if slot.Some? && slot.value.Path? then |slot.value.p| else 0
  }

  /**
    A slot whose non-empty prefix matches `path`: the prefix is a byte
    prefix of the path, and the path ends there or goes on with '/'
    (so "/data" does not match "/data1/foo.txt").
  */
  predicate MountMatch(slot: Option<Prefix>, path: string)
  {
    && slot.Some? && slot.value.Path?
    && |slot.value.p| > 0
    && IsPrefix(slot.value.p, path)
    && (|path| == |slot.value.p| || path[|slot.value.p|] == '/')
  }

  /** A slot holding an empty-prefix (default) entry, which matches every path. */
  predicate DefaultMount(slot: Option<Prefix>)
  {
    slot == Some(Path([]))
  }

  /** The path passes the separator test applied to a second default entry. */
  predicate RootLike(path: string)
  {
    |path| == 0 || path[0] == '/'
  }

  /**
    The matching slot with the longest non-empty prefix, the earliest one
    among equally long prefixes.
  */
  function LongestMatch(s: seq<Option<Prefix>>, path: string): (r: Option<nat>)
    ensures r.Some? ==> r.value < |s| && MountMatch(s[r.value], path)
    decreases |s|
  {
    if |s| == 0 then None
    else
      var prev := LongestMatch(s[..|s| - 1], path);
      var last := |s| - 1;
      if MountMatch(s[last], path) && (prev.None? || PrefixLen(s[prev.value]) < PrefixLen(s[last]))
      then Some(last)
      else prev
  }

  /** The slots holding a default entry, in ascending order. */
  function Defaults(s: seq<Option<Prefix>>): (r: seq<nat>)
    ensures forall k :: 0 <= k < |r| ==> r[k] < |s| && DefaultMount(s[r[k]])
    ensures forall i :: 0 <= i < |s| && DefaultMount(s[i]) ==> i in r
    ensures forall k, l :: 0 <= k < l < |r| ==> r[k] < r[l]
    decreases |s|
  {
    if |s| == 0 then []
    else
      var prev := Defaults(s[..|s| - 1]);
      if DefaultMount(s[|s| - 1]) then prev + [|s| - 1] else prev
  }

  /**
    The default entry chosen when no non-empty prefix matches: the first
    one, except that a second default entry takes over when the path is
    empty or starts with '/' (vfs.c:86-105: the first default entry is
    taken without recording its length, so the second one wins the
    length comparison -1 < 0).
  */
  function DefaultMatch(s: seq<Option<Prefix>>, path: string): Option<nat>
  {
    var d := Defaults(s);
    if |d| == 0 then None
    else if |d| >= 2 && RootLike(path) then Some(d[1])
    else Some(d[0])
  }

  /** The slot `pico_vfs_get_vfs_for_path` selects for `path`. */
  function Resolve(s: seq<Option<Prefix>>, path: string): Option<nat>
  {
    var m := LongestMatch(s, path);
    if m.Some? then m else DefaultMatch(s, path)
  }

  /** `LongestMatch` is the earliest of the longest matching prefixes, and absent only when nothing matches. */
  lemma {:induction false} LongestMatchIsLongest(s: seq<Option<Prefix>>, path: string)
    ensures LongestMatch(s, path).None? <==> forall i :: 0 <= i < |s| ==> !MountMatch(s[i], path)
    ensures LongestMatch(s, path).Some? ==>
      forall j :: 0 <= j < |s| && MountMatch(s[j], path) ==>
        PrefixLen(s[j]) <= PrefixLen(s[LongestMatch(s, path).value])
    ensures LongestMatch(s, path).Some? ==>
      forall j :: 0 <= j < LongestMatch(s, path).value && MountMatch(s[j], path) ==>
        PrefixLen(s[j]) < PrefixLen(s[LongestMatch(s, path).value])
    decreases |s|
  {
    if |s| > 0 {
      var init := s[..|s| - 1];
      LongestMatchIsLongest(init, path);
      assert forall j :: 0 <= j < |init| ==> init[j] == s[j];
    }
  }

  /**
    Routing is sound: the selected slot holds a path-matchable entry whose
    prefix is a byte prefix of the path, followed in the path by its end
    or by '/' when the prefix is not empty; a descriptor-range entry is
    never selected.
  */
  lemma ResolveSound(s: seq<Option<Prefix>>, path: string)
    ensures Resolve(s, path).Some? ==>
      var i := Resolve(s, path).value;
      && i < |s| && s[i].Some? && s[i].value.Path?
      && IsPrefix(s[i].value.p, path)
      && (|s[i].value.p| > 0 ==> |path| == |s[i].value.p| || path[|s[i].value.p|] == '/')
  {
  }

  /**
    The prefix choice: when some non-empty prefix matches, the strictly
    longest wins and the earliest wins ties; a default entry is chosen only
    when no non-empty prefix matches, and nothing only when there is no
    default entry either.
  */
  lemma ResolveLongestWins(s: seq<Option<Prefix>>, path: string)
    ensures (exists i :: 0 <= i < |s| && MountMatch(s[i], path)) ==>
      && Resolve(s, path).Some?
      && MountMatch(s[Resolve(s, path).value], path)
      && (forall j :: 0 <= j < |s| && MountMatch(s[j], path) ==>
            PrefixLen(s[j]) <= PrefixLen(s[Resolve(s, path).value]))
      && (forall j :: 0 <= j < Resolve(s, path).value && MountMatch(s[j], path) ==>
            PrefixLen(s[j]) < PrefixLen(s[Resolve(s, path).value]))
    ensures (forall i :: 0 <= i < |s| ==> !MountMatch(s[i], path)) ==>
      && (Resolve(s, path).None? <==> forall i :: 0 <= i < |s| ==> !DefaultMount(s[i]))
      && (Resolve(s, path).Some? ==> DefaultMount(s[Resolve(s, path).value]))
  {
    LongestMatchIsLongest(s, path);
    var d := Defaults(s);
    if |d| == 0 {
      assert forall i :: 0 <= i < |s| ==> !DefaultMount(s[i]);
    }
  }

  /**
    `translate_path`: the path seen by the driver once the matched prefix
    of length `prefixLen` is stripped; "/" when nothing is left.
  */
  function Translate(prefixLen: nat, path: string): (r: string)
    requires prefixLen <= |path|
    ensures |path| == prefixLen ==> r == "/"
    ensures |path| > prefixLen ==> path[..prefixLen] + r == path
  {
    if |path| == prefixLen then "/" else path[prefixLen..]
  }

  /** A path routed to a non-empty prefix reaches the driver as an absolute path. */
  lemma TranslateIsAbsolute(slot: Option<Prefix>, path: string)
    requires MountMatch(slot, path)
    ensures |Translate(|slot.value.p|, path)| > 0 && Translate(|slot.value.p|, path)[0] == '/'
  {
  }

  /** Mounts "/a" (slot 0) and "/a/b" (slot 1): "/a/b/c" goes to "/a/b". */
  lemma ExampleNestedMounts()
    ensures Resolve([Some(Path("/a")), Some(Path("/a/b"))], "/a/b/c") == Some(1)
  {
    var s := [Some(Path("/a")), Some(Path("/a/b"))];
    assert MountMatch(s[0], "/a/b/c");
    assert MountMatch(s[1], "/a/b/c");
    assert s[..1] == [s[0]];
    assert LongestMatch(s[..1], "/a/b/c") == Some(0) by {
      assert s[..1][..0] == [];
    }
  }

  /** Mounts "/a" and "/a/b": "/a1" matches neither and falls through to the default entry in slot 2. */
  lemma ExampleNoPartialComponent()
    ensures Resolve([Some(Path("/a")), Some(Path("/a/b")), Some(Path(""))], "/a1") == Some(2)
  {
    var s := [Some(Path("/a")), Some(Path("/a/b")), Some(Path(""))];
    assert !MountMatch(s[0], "/a1") by { assert "/a1"[2] == '1'; }
    assert !MountMatch(s[1], "/a1") by { assert "/a1"[..3] != "/a/"; }
    assert !MountMatch(s[2], "/a1");
    LongestMatchIsLongest(s, "/a1");
    assert s[..2][..1] == s[..1];
    assert s[..2] == [s[0], s[1]];
    assert Defaults(s[..1]) == [] by { assert s[..1][..0] == []; }
    assert s[..3][..2] == s[..2];
    assert Defaults(s[..2]) == [];
    assert Defaults(s) == [2];
  }
}
