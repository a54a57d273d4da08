/**
 The crash model: a file system in which appended bytes are volatile until the file
 is synced, and directory changes are volatile until the directory is synced. It
 follows the simulated file system the repository tests its durability against.

 One directory is modelled. A file has an identity of its own, so that a handle and
 several directory entries can refer to it.
 */
module SimFs {
  import opened LogFormat

  datatype File = File(data: Bytes, synced: nat)

  datatype DirOp<N> = Link(name: N, id: nat) | Unlink(name: N) | Rename(name: N, to: N, id: nat)

  datatype CrashMode = LoseUnsynced | KeepUnsynced | Torn

  function Apply<N>(entries: map<N, nat>, op: DirOp<N>): map<N, nat> {
    match op
    case Link(name, id) => entries[name := id]
    case Unlink(name) => entries - {name}
    case Rename(name, to, id) => (entries - {name})[to := id]
  }

  /** The entries after a subset of the operations, in order. */
  function ApplyChosen<N>(entries: map<N, nat>, ops: seq<DirOp<N>>, chosen: seq<bool>): map<N, nat>
    requires |ops| == |chosen|
  {
    if ops == [] then entries
    else
      var before := ApplyChosen(entries, ops[..|ops| - 1], chosen[..|ops| - 1]);
      if chosen[|ops| - 1] then Apply(before, ops[|ops| - 1]) else before
  }

  function All(n: nat, b: bool): (r: seq<bool>)
    ensures |r| == n
  {
    seq(n, _ => b)
  }

  /** A power loss during writeback: the synced part survives, then some of what was
      written after it, of which up to 64 bytes at the end may be anything. */
  ghost predicate TornFile(f: File, data: Bytes) {
    && f.synced <= |data| <= |f.data|
    && exists good :: f.synced <= good <= |data| <= good + 64 && data[..good] == f.data[..good]
  }

  datatype Fs<N> = Fs(files: map<nat, File>, current: map<N, nat>, durable: map<N, nat>, pending: seq<DirOp<N>>) {

    ghost predicate Valid() {
      && (forall n | n in current :: current[n] in files)
      && (forall n | n in durable :: durable[n] in files)
      && (forall i | 0 <= i < |pending| && !pending[i].Unlink? :: pending[i].id in files)
      && (forall id | id in files :: files[id].synced <= |files[id].data|)
      && current == ApplyChosen(durable, pending, All(|pending|, true))
    }

    // --- operations ---------------------------------------------------------------------

    /** open_append(kCreateNew): a new empty file under a new name. */
    function Create(name: N, id: nat): Fs<N>
      requires id !in files && name !in current
    {
      Fs(files[id := File([], 0)], current[name := id], durable, pending + [Link(name, id)])
    }

    function Append(id: nat, bytes: Bytes): Fs<N>
      requires id in files
    {
      this.(files := files[id := files[id].(data := files[id].data + bytes)])
    }

    function Sync(id: nat): Fs<N>
      requires id in files
    {
      this.(files := files[id := files[id].(synced := |files[id].data|)])
    }

    function Move(name: N, to: N): Fs<N>
      requires name in current
    {
      this.(current := (current - {name})[to := current[name]], pending := pending + [Rename(name, to, current[name])])
    }

    function Remove(name: N): Fs<N>
      requires name in current
    {
      this.(current := current - {name}, pending := pending + [Unlink(name)])
    }

    function SyncDir(): Fs<N> {
      this.(durable := current, pending := [])
    }

    static lemma ApplyOneMore(entries: map<N, nat>, ops: seq<DirOp<N>>, op: DirOp<N>)
      ensures ApplyChosen(entries, ops + [op], All(|ops| + 1, true)) ==
              Apply(ApplyChosen(entries, ops, All(|ops|, true)), op)
    {
      assert (ops + [op])[..|ops|] == ops;
      assert All(|ops| + 1, true)[..|ops|] == All(|ops|, true);
    }

    /** Every operation keeps the current entries in step with the durable ones and the
        changes pending since. */
    lemma CreateIsValid(name: N, id: nat)
      requires Valid() && id !in files && name !in current
      ensures Create(name, id).Valid()
    {
      ApplyOneMore(durable, pending, Link(name, id));
    }

    lemma AppendIsValid(id: nat, bytes: Bytes)
      requires Valid() && id in files
      ensures Append(id, bytes).Valid()
    {
    }

    lemma SyncIsValid(id: nat)
      requires Valid() && id in files
      ensures Sync(id).Valid()
    {
    }

    lemma SyncDirIsValid()
      requires Valid()
      ensures SyncDir().Valid()
    {
    }

    lemma MoveIsValid(name: N, to: N)
      requires Valid() && name in current
      ensures Move(name, to).Valid()
    {
      ApplyOneMore(durable, pending, Rename(name, to, current[name]));
    }

    lemma RemoveIsValid(name: N)
      requires Valid() && name in current
      ensures Remove(name).Valid()
    {
      ApplyOneMore(durable, pending, Unlink(name));
    }

    // --- crashes --------------------------------------------------------------------------

    ghost predicate CrashesTo(mode: CrashMode, image: map<N, Bytes>)
      requires Valid()
    {
      match mode
      case LoseUnsynced =>
        image.Keys == durable.Keys &&
          forall n | n in image :: image[n] == files[durable[n]].data[..files[durable[n]].synced]
      case KeepUnsynced =>
        image.Keys == current.Keys && forall n | n in image :: image[n] == files[current[n]].data
      case Torn =>
        exists chosen | |chosen| == |pending| :: TornTo(chosen, image)
    }

    ghost predicate TornTo(chosen: seq<bool>, image: map<N, Bytes>)
      requires |chosen| == |pending|
    {
      var surviving := ApplyChosen(durable, pending, chosen);
      && image.Keys == surviving.Keys
      && forall n | n in image :: surviving[n] in files && TornFile(files[surviving[n]], image[n])
    }

    /** Losing or keeping everything unsynced is a special case of tearing it. */
    lemma TornCoversAll(mode: CrashMode, image: map<N, Bytes>)
      requires Valid() && CrashesTo(mode, image)
      ensures exists chosen | |chosen| == |pending| :: TornTo(chosen, image)
    {
      match mode
      case LoseUnsynced =>
        var none := All(|pending|, false);
        ChooseNone(durable, pending);
        forall n | n in image ensures TornFile(files[durable[n]], image[n]) {
          assert image[n][..files[durable[n]].synced] == files[durable[n]].data[..files[durable[n]].synced];
        }
        assert TornTo(none, image);
      case KeepUnsynced =>
        forall n | n in image ensures TornFile(files[current[n]], image[n]) {
          assert image[n][..|image[n]|] == files[current[n]].data[..|image[n]|];
        }
        assert TornTo(All(|pending|, true), image);
      case Torn =>
    }

    static lemma {:induction false} ChooseNone(entries: map<N, nat>, ops: seq<DirOp<N>>)
      ensures ApplyChosen(entries, ops, All(|ops|, false)) == entries
    {
      if ops != [] {
        ChooseNone(entries, ops[..|ops| - 1]);
        assert All(|ops|, false)[..|ops| - 1] == All(|ops| - 1, false);
      }
    }
  }
}
