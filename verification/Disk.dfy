/** The host file system as the readers see it: descriptors, positions, and reads that may fail. */
module Disk {
  import opened Bytes
  import opened FolderTree

  datatype FileHandle = FileHandle(file: File, pos: nat)

  /** What a healthy read of `n` bytes returns: less than `n` only at the end of the file. */
  function Available(h: FileHandle, n: nat): seq<Byte> {
    if h.pos >= |h.file.data| then [] else h.file.data[h.pos..Min(h.pos + n, |h.file.data|)]
  }

  lemma {:induction false} Bounded(s: set<int>) returns (m: nat)
    ensures forall x :: x in s ==> x < m
    decreases s
  {
    if x :| x in s {
      m := Bounded(s - {x});
      m := if x < m then m else x + 1;
      assert forall y :: y in s ==> y == x || y in s - {x};
    } else {
      m := 0;
    }
  }

  /** `faults` counts failed opens and reads that returned less than a healthy disk would. */
  class HostFiles {
    var open: map<int, FileHandle>
    var faults: nat

    constructor ()
      ensures open == map[] && faults == 0
    {
      open, faults := map[], 0;
    }

    /** A failure, or any descriptor number that is not in use: numbers are recycled. */
    method OpenFile(f: File) returns (fd: int)
      modifies this
      ensures fd < 0 ==> open == old(open) && faults == old(faults) + 1
      ensures fd >= 0 ==> fd !in old(open) && open == old(open)[fd := FileHandle(f, 0)] && faults == old(faults)
    {
      if * {
        faults := faults + 1;
        return -1;
      }
      ghost var m := Bounded(open.Keys);
      assert m as int !in open;
      fd :| fd >= 0 && fd !in open;
      open := open[fd := FileHandle(f, 0)];
    }

    method SeekFile(fd: int, off: nat)
      requires fd in open
      modifies this
      ensures open == old(open)[fd := old(open)[fd].(pos := off)] && faults == old(faults)
    {
      open := open[fd := open[fd].(pos := off)];
    }

    method ReadFile(fd: int, n: nat) returns (ret: int, bytes: seq<Byte>)
      requires fd in open
      modifies this
      ensures bytes <= Available(old(open)[fd], n) && (ret >= 0 ==> ret == |bytes|)
      ensures open == old(open)[fd := old(open)[fd].(pos := old(open)[fd].pos + |bytes|)]
      ensures faults >= old(faults)
      ensures faults == old(faults) ==> ret == |bytes| && bytes == Available(old(open)[fd], n)
    {
      var h := open[fd];
      var all := Available(h, n);
      if * {
        faults := faults + 1;
        if * {
          ret, bytes := -1, [];
        } else {
          var k :| 0 <= k <= |all|;
          ret, bytes := k, all[..k];
        }
      } else {
        ret, bytes := |all|, all;
      }
      open := open[fd := h.(pos := h.pos + |bytes|)];
    }

    method CloseFile(fd: int)
      requires fd in open
      modifies this
      ensures open == old(open) - {fd} && faults == old(faults)
    {
      open := open - {fd};
    }
  }
}
