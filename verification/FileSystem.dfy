/** One directory of a file system, and the calls that change it. Any call may fail. */
module FileSystem {
  import opened ByteCodec
  import opened Wrappers

  /** Every file below a directory, by its relative path. */
  type Tree = map<string, Bytes>

  datatype Node = Folder(files: Tree) | Plain

  /** What is directly inside the directory. */
  type Disk = map<string, Node>

  predicate SameAt(a: Disk, b: Disk, name: string) {
    if name in a then name in b && a[name] == b[name] else name !in b
  }

  ghost predicate SameExcept(a: Disk, b: Disk, names: set<string>) {
    forall name :: name !in names ==> SameAt(a, b, name)
  }

  lemma SameThrough(a: Disk, b: Disk, c: Disk, some: set<string>, names: set<string>)
    requires SameExcept(a, b, names) && SameExcept(b, c, some) && some <= names
    ensures SameExcept(a, c, names)
  {
    forall name | name !in names
      ensures SameAt(a, c, name)
    {
      assert SameAt(a, b, name) && SameAt(b, c, name);
    }
  }

  /** `rename` replaces only an empty directory by a directory, or a file by a file. */
  predicate MayRename(d: Disk, from: string, to: string) {
    from in d && (to !in d || (if d[from].Folder? then d[to] == Folder(map[]) else d[to].Plain?))
  }

  function Rename(d: Disk, from: string, to: string, fault: bool): (r: Option<Disk>)
    ensures r.Some? && from != to ==> from in d && from !in r.value && to in r.value && r.value[to] == d[from]
    ensures r.Some? ==> SameExcept(d, r.value, {from, to})
    ensures !fault && from in d && to !in d ==> r.Some?
  {
    if fault || !MayRename(d, from, to) then None
    else if from == to then Some(d)
    else Some(d[to := d[from]] - {from})
  }

  /** How a recursive removal ends: everything gone, or stopped with some files left. */
  datatype Removal = Finished | Stopped(left: set<string>)

  /** `remove_dir_all`; it succeeds when the name is gone. */
  function RemoveAll(d: Disk, name: string, how: Removal): (r: Disk)
    ensures SameExcept(d, r, {name})
    ensures name in d && d[name].Folder? && how.Finished? ==> name !in r
    ensures name !in d ==> r == d
  {
    if name !in d || d[name].Plain? then d
    else if how.Finished? then d - {name}
    else d[name := Folder(map f | f in d[name].files && f in how.left :: d[name].files[f])]
  }
}
