/** The part of a POSIX file system the backup uses: names point to inodes, inodes hold text. */
module FileSystem {
  import opened Wrappers

  type Inode = nat

  datatype Disk = Disk(names: map<string, Inode>, data: map<Inode, string>, next: Inode) {

    /** Every name has its inode, and next is unused. */
    ghost predicate Valid() {
      && (forall p <- names :: names[p] in data)
      && (forall i <- data :: i < next)
    }

    /** os.Remove; the caller ignores a missing file. */
    function Unlink(p: string): Disk {
      this.(names := names - {p})
    }

    /** os.Rename, replacing the target; the caller ignores a missing source. */
    function Move(p: string, q: string): Disk {
      if p !in names then this else this.(names := (names - {p})[q := names[p]])
    }

    /** Open with O_CREATE: an existing inode is kept with its text, a new one starts empty. */
    function Open(p: string): (Disk, Inode) {
      if p in names then (this, names[p])
      else (Disk(names[p := next], data[next := ""], next + 1), next)
    }

    /** A write through a descriptor opened with O_APPEND. */
    function Append(i: Inode, text: string): Disk
      requires i in data
    {
      this.(data := data[i := data[i] + text])
    }

    /** What reading the path now gives. */
    function Content(p: string): Option<string> {
      if p in names && names[p] in data then Some(data[names[p]]) else None
    }
  }

  lemma AppendTwice(d: Disk, i: Inode, a: string, b: string)
    requires i in d.data
    ensures d.Append(i, a).Append(i, b) == d.Append(i, a + b)
  {
    assert d.data[i] + a + b == d.data[i] + (a + b);
    assert d.Append(i, a).Append(i, b).data == d.Append(i, a + b).data;
  }

  lemma AppendNothing(d: Disk, i: Inode)
    requires i in d.data
    ensures d.Append(i, "") == d
  {
    assert d.data[i] + "" == d.data[i];
    assert d.Append(i, "").data == d.data;
  }

  /** The mounted disk, shared by every open file. */
  class Volume {
    var disk: Disk

    constructor (d: Disk)
      ensures disk == d
    {
      disk := d;
    }
  }
}
