/**
 Open file descriptors and the three calls the handlers make on them. The
 offset of a descriptor is shared by every thread that uses it; the bytes of a
 file do not change.
 */
module Files {
  import opened CString

  datatype Descriptor = Descriptor(data: Bytes, offset: nat)

  /** The descriptor table; a descriptor is its index. */
  type Descriptors = seq<Descriptor>

  /** lseek(fd, 0, SEEK_SET). */
  function SeekStart(fds: Descriptors, fd: nat): (r: Descriptors)
    requires fd < |fds|
    ensures SameFiles(r, fds) && r[fd].offset == 0
    ensures forall i | 0 <= i < |fds| && i != fd :: r[i].offset == fds[i].offset
  {
    fds[fd := fds[fd].(offset := 0)]
  }

  /** lseek(fd, 0, SEEK_END); the call returns the new offset. */
  function SeekEnd(fds: Descriptors, fd: nat): (r: Descriptors)
    requires fd < |fds|
    ensures SameFiles(r, fds) && r[fd].offset == |fds[fd].data|
    ensures forall i | 0 <= i < |fds| && i != fd :: r[i].offset == fds[i].offset
  {
    fds[fd := fds[fd].(offset := |fds[fd].data|)]
  }

  /** The bytes pread(fd, buf, _, at) delivers when it returns `count`. */
  function PreadBytes(fds: Descriptors, fd: nat, count: nat, at: nat): Bytes
    requires fd < |fds| && at + count <= |fds[fd].data|
  {
    fds[fd].data[at..at + count]
  }

  /** Two tables that differ in offsets only. */
  ghost predicate SameFiles(a: Descriptors, b: Descriptors) {
    |a| == |b| && forall i | 0 <= i < |a| :: a[i].data == b[i].data
  }

  lemma SameFilesOn(a: Descriptors, b: Descriptors, c: Descriptors)
    requires SameFiles(a, b) && SameFiles(b, c)
    ensures SameFiles(a, c)
  {
  }

  /** A call of pread, with what it returned. */
  datatype ReadCall = ReadCall(fd: nat, at: nat, room: nat, n: int)

  /** The process's descriptor table, as the system calls change it. `preads`
      records the calls of pread. */
  class Kernel {
    var fds: Descriptors
    ghost var preads: seq<ReadCall>

    /** open(path, O_RDONLY): a new descriptor at offset 0, or -1. */
    method Open(path: Bytes, disk: map<Bytes, Bytes>) returns (fd: int)
      modifies this`fds
      ensures if path in disk then fd == |old(fds)| && fds == old(fds) + [Descriptor(disk[path], 0)]
              else fd == -1 && fds == old(fds)
    {
      if path in disk {
        fd := |fds|;
        fds := fds + [Descriptor(disk[path], 0)];
      } else {
        fd := -1;
      }
    }

    /** lseek(fd, 0, SEEK_END). */
    method LseekEnd(fd: nat) returns (offset: nat)
      requires fd < |fds|
      modifies this`fds
      ensures fds == SeekEnd(old(fds), fd) && offset == fds[fd].offset
    {
      fds := SeekEnd(fds, fd);
      offset := fds[fd].offset;
    }

    /** pread: an error, or as many bytes as it likes, up to the room in the
        buffer and the end of the file. The offset of the descriptor stays. */
    method Pread(fd: nat, buffer: array<byte>, at: nat) returns (count: int)
      requires fd < |fds| && at <= |fds[fd].data|
      modifies this`preads, buffer
      ensures -1 <= count <= buffer.Length && at + count <= |fds[fd].data|
      ensures preads == old(preads) + [ReadCall(fd, at, buffer.Length, count)]
      ensures count >= 0 ==> buffer[..count] == PreadBytes(fds, fd, count, at)
    {
      assert -1 <= -1 <= buffer.Length;
      count :| -1 <= count <= buffer.Length && at + count <= |fds[fd].data|;
      forall i | 0 <= i < count {
        buffer[i] := fds[fd].data[at + i];
      }
      preads := preads + [ReadCall(fd, at, buffer.Length, count)];
    }
  }
}
