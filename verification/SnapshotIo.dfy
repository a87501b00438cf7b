/** The part-by-part snapshot files of the replication (src/persistence/snapshot_io.c): what
    was read or written and what remains always add up to the agreed size. */
module SnapshotIo {
  import opened Bytes
  import opened Store

  /** `kvs_snapshot_reader_t` over the Primary's snapshot file. */
  class PartReader {
    var file: Option<ByteString>
    var position: nat
    var remaining: nat

    /** Exactly the bytes before `position` were handed out. */
    ghost predicate Valid()
      reads this
    {
      file.Some? ==> position + remaining == |file.value|
    }

    constructor ()
      ensures Valid() && file == None
    {
      file, position, remaining := None, 0, 0;
    }

    /** `kvs_snapshot_reader_open`: only a file of exactly the announced size. */
    method Open(content: ByteString, expected: int) returns (ok: bool)
      modifies this
      requires Valid()
      ensures Valid() && (ok <==> expected > 0 && |content| == expected)
      ensures expected > 0 ==> file == (if ok then Some(content) else None) && (ok ==> position == 0)
      ensures expected <= 0 ==> file == old(file) && position == old(position)
    {
      if expected <= 0 { return false; }
      file, position, remaining := None, 0, 0;
      if |content| != expected { return false; }
      file, remaining := Some(content), expected;
      return true;
    }

    /** `kvs_snapshot_reader_read` when the file read returns `result`. */
    method Read(capacity: nat, result: int) returns (ok: bool, bytes: ByteString)
      requires Valid() && result <= capacity && result <= remaining
      modifies this`position, this`remaining
      ensures Valid()
      ensures ok <==> file.Some? && capacity > 0 && (old(remaining) == 0 || result > 0)
      ensures ok ==> position == old(position) + (if old(remaining) == 0 then 0 else result) <= |file.value|
      ensures ok ==> bytes == file.value[old(position)..position]
      ensures !ok ==> position == old(position) && bytes == []
    {
      if file.None? || capacity == 0 { return false, []; }
      if remaining == 0 { return true, []; }
      if result <= 0 { return false, []; }
      bytes := file.value[position..position + result];
      position := position + result;
      remaining := remaining - result;
      return true, bytes;
    }

    method Close()
      modifies this
      ensures Valid() && file == None
    {
      file, position, remaining := None, 0, 0;
    }
  }

  /** `kvs_snapshot_writer_t` with the two paths of the Replica: the temporary file and the
      installed snapshot. `announced` is the size agreed when the file was opened; `trouble` says
      that a write returned an error other than an interruption, or nothing. */
  class PartWriter {
    var isOpen: bool
    var remaining: nat
    var temporary: Option<ByteString>
    var installed: Option<ByteString>
    var interrupts: nat
    ghost var announced: nat
    ghost var trouble: bool

    ghost predicate Valid()
      reads this
    {
      isOpen ==> temporary.Some? && |temporary.value| + remaining == announced && announced > 0
    }

    constructor (installed: Option<ByteString>, interrupts: nat)
      ensures Valid() && !isOpen && this.installed == installed && !trouble
    {
      isOpen, remaining, temporary := false, 0, None;
      this.installed, this.interrupts := installed, interrupts;
      announced, trouble := 0, false;
    }

    /** `kvs_snapshot_writer_open`: truncates the temporary file. */
    method Open(expected: int) returns (ok: bool)
      modifies this`isOpen, this`remaining, this`temporary, this`announced
      requires Valid()
      ensures Valid() && (ok <==> expected > 0)
      ensures ok ==> isOpen && temporary == Some([]) && remaining == expected == announced
      ensures !ok ==> isOpen == old(isOpen) && temporary == old(temporary) && remaining == old(remaining)
    {
      if expected <= 0 { return false; }
      temporary, isOpen, remaining := Some([]), true, expected;
      announced := expected;
      return true;
    }

    /** `kvs_snapshot_writer_write`: the loop over short and interrupted writes. After a failure
        the temporary file may be longer than `remaining` accounts for; the caller aborts. */
    method Write(data: ByteString) returns (written: int)
      requires Valid()
      modifies this`remaining, this`temporary, this`interrupts, this`trouble
      ensures written >= 0 ==>
                && old(isOpen) && Valid() && data != []
                && written == (if |data| < old(remaining) then |data| else old(remaining))
                && remaining == old(remaining) - written && temporary == Some(old(temporary).value + data[..written])
      ensures written < 0 ==> written == -1 && remaining == old(remaining)
      ensures !old(trouble) ==> (written < 0 <==> !old(isOpen) || data == [] || trouble)
      ensures old(isOpen) && written < 0 ==> temporary.Some? && old(temporary).value <= temporary.value
    {
      if !isOpen || data == [] { return -1; }
      if remaining == 0 {
        assert temporary == Some(old(temporary).value + data[..0]);
        return 0;
      }
      var size := |data|;
      if remaining < size { size := remaining; }
      var done: nat := 0;
      assert temporary.value == old(temporary).value + data[..0];
      while done < size
        invariant trouble == old(trouble)
        invariant 0 <= done <= size && remaining == old(remaining) && temporary.Some?
                  && temporary.value == old(temporary).value + data[..done]
        decreases size - done, interrupts
      {
        var result: int := *;
        if result > size - done { result := size - done; }
        if result > 0 {
          assert data[..done] + data[done..done + result] == data[..done + result];
          temporary := Some(temporary.value + data[done..done + result]);
          done := done + result;
          continue;
        }
        if result < 0 && interrupts > 0 {
          interrupts := interrupts - 1;
          continue;
        }
        trouble := true;
        return -1;
      }
      remaining := remaining - size;
      return size;
    }

    /** `kvs_snapshot_writer_commit`: only a complete file replaces the installed one. */
    method Commit(syncs: bool, closes: bool, renames: bool) returns (ok: bool)
      requires Valid()
      modifies this`isOpen, this`temporary, this`installed
      ensures ok <==> old(isOpen) && remaining == 0 && syncs && closes && renames
      ensures ok ==>
                !isOpen && installed == old(temporary) && installed.Some? && |installed.value| == announced
                && temporary == None
      ensures !ok ==> installed == old(installed)
      ensures Valid()
    {
      if !isOpen || remaining != 0 { return false; }
      isOpen := false;
      if !syncs || !closes || !renames { return false; }
      installed, temporary := temporary, None;
      return true;
    }

    /** `kvs_snapshot_writer_abort`: the installed snapshot stays. */
    method Abort()
      modifies this`isOpen, this`remaining, this`temporary
      ensures Valid() && !isOpen && remaining == 0 && temporary == None && installed == old(installed)
    {
      isOpen, remaining, temporary := false, 0, None;
    }
  }
}
