/**
 The keyboard's ring buffer (libdcpu-vm/hwkeyboard.c) refines a queue of 99 keys that drops the oldest.
 */
module Keyboard {
  import opened Words

  const KB_BUFFER_COUNT := 100

  // ----- The queue -----

  /** A key is queued; a full queue drops its oldest key. */
  function Enqueue(keys: seq<Word>, key: Word): (r: seq<Word>)
    ensures |keys| < KB_BUFFER_COUNT ==> |r| < KB_BUFFER_COUNT
  {
    if |keys| == KB_BUFFER_COUNT - 1 then keys[1..] + [key] else keys + [key]
  }

  datatype Action = Typed(key: Word) | Stored

  /** The queue and the keys handed out, zeros for an empty queue not counted, after a run. */
  function Run(actions: seq<Action>): (r: (seq<Word>, seq<Word>))
    ensures |r.0| < KB_BUFFER_COUNT
  {
    if actions == [] then ([], [])
    else
      var (keys, got) := Run(actions[..|actions| - 1]);
      match actions[|actions| - 1]
      case Typed(k) => (Enqueue(keys, k), got)
      case Stored => if keys == [] then (keys, got) else (keys[1..], got + [keys[0]])
  }

  function TypedIn(actions: seq<Action>): seq<Word> {
    if actions == [] then []
    else TypedIn(actions[..|actions| - 1]) + if actions[|actions| - 1].Typed? then [actions[|actions| - 1].key] else []
  }

  /** No key is typed into a full queue. */
  ghost predicate NeverFull(actions: seq<Action>) {
    forall i :: 0 <= i < |actions| && actions[i].Typed? ==> |Run(actions[..i]).0| < KB_BUFFER_COUNT - 1
  }

  /** Without overflow every key is handed out once and in order. */
  lemma {:induction false} NothingIsLost(actions: seq<Action>)
    requires NeverFull(actions)
    ensures Run(actions).1 + Run(actions).0 == TypedIn(actions)
  {
    if actions != [] {
      var rest := actions[..|actions| - 1];
      forall i | 0 <= i < |rest| && rest[i].Typed? ensures |Run(rest[..i]).0| < KB_BUFFER_COUNT - 1 {
        assert rest[..i] == actions[..i];
      }
      NothingIsLost(rest);
      var (keys, got) := Run(rest);
      match actions[|actions| - 1]
      case Typed(k) => assert got + (keys + [k]) == got + keys + [k];
      case Stored => assert keys != [] ==> got + [keys[0]] + keys[1..] == got + keys;
    }
  }

  // ----- The ring buffer -----

  /** The keys between the read and the write index. */
  function Pending(buffer: seq<Word>, r: nat, w: nat): seq<Word>
    requires |buffer| == KB_BUFFER_COUNT && r < KB_BUFFER_COUNT && w < KB_BUFFER_COUNT
  {
    if r <= w then buffer[r..w] else buffer[r..] + buffer[..w]
  }

  function Next(i: nat): nat {
    if i + 1 >= KB_BUFFER_COUNT then 0 else i + 1
  }

  /** The key is written, and the write index moved. */
  lemma {:induction false} PendingWritten(buffer: seq<Word>, r: nat, w: nat, key: Word)
    requires |buffer| == KB_BUFFER_COUNT && r < KB_BUFFER_COUNT && w < KB_BUFFER_COUNT && r != Next(w)
    ensures Pending(buffer[w := key], r, Next(w)) == Pending(buffer, r, w) + [key]
  {
  }

  /** The key is written over the oldest one, and both indices moved. */
  lemma {:induction false} PendingOverwritten(buffer: seq<Word>, r: nat, w: nat, key: Word)
    requires |buffer| == KB_BUFFER_COUNT && r < KB_BUFFER_COUNT && w < KB_BUFFER_COUNT && r == Next(w)
    ensures |Pending(buffer, r, w)| == KB_BUFFER_COUNT - 1
    ensures Pending(buffer[w := key], Next(r), Next(w)) == Pending(buffer, r, w)[1..] + [key]
  {
    var b := buffer[w := key];
    if r == 0 {
      assert b[1..] + b[..0] == buffer[0..w][1..] + [key];
    } else if r == KB_BUFFER_COUNT - 1 {
      assert b[0..r] == (buffer[r..] + buffer[..w])[1..] + [key];
    } else {
      assert b[r + 1..] + b[..r] == (buffer[r..] + buffer[..w])[1..] + [key];
    }
  }

  class Buffer {
    const buffer: array<Word>
    var readIndex: nat
    var writeIndex: nat

    ghost predicate Valid()
      reads this
    {
      buffer.Length == KB_BUFFER_COUNT && readIndex < KB_BUFFER_COUNT && writeIndex < KB_BUFFER_COUNT
    }

    ghost function Keys(): seq<Word>
      requires Valid()
      reads this, buffer
    {
      Pending(buffer[..], readIndex, writeIndex)
    }

    constructor ()
      ensures Valid() && Keys() == [] && fresh(buffer)
    {
      buffer := new Word[KB_BUFFER_COUNT](_ => 0);
      readIndex, writeIndex := 0, 0;
    }

    /** `vm_hw_keyboard_append_to_buffer` */
    method Append(index: int)
      requires Valid()
      modifies this, buffer
      ensures Valid()
      ensures Keys() == if index >= 0 then Enqueue(old(Keys()), Wrap(index)) else old(Keys())
    {
      if index >= 0 {
        if readIndex == Next(writeIndex) {
          PendingOverwritten(buffer[..], readIndex, writeIndex, Wrap(index));
        } else {
          PendingWritten(buffer[..], readIndex, writeIndex, Wrap(index));
        }
        ghost var written := buffer[..][writeIndex := Wrap(index)];
        buffer[writeIndex] := Wrap(index);
        assert buffer[..] == written;
        writeIndex := writeIndex + 1;
        if writeIndex >= KB_BUFFER_COUNT { writeIndex := 0; }
        if readIndex == writeIndex {
          readIndex := readIndex + 1;
          if readIndex >= KB_BUFFER_COUNT { readIndex := 0; }
        }
      }
    }

    /** The store case of `vm_hw_keyboard_interrupt`: register C gets the oldest key, or zero. */
    method Store() returns (c: Word)
      requires Valid()
      modifies this`readIndex
      ensures Valid()
      ensures if old(Keys()) == [] then c == 0 && Keys() == [] else c == old(Keys())[0] && Keys() == old(Keys())[1..]
    {
      if readIndex == writeIndex {
        c := 0;
      } else {
        c := buffer[readIndex];
        readIndex := readIndex + 1;
        if readIndex >= KB_BUFFER_COUNT { readIndex := 0; }
      }
    }

    /** The clear case: the cells are zeroed, but as many keys as before stay queued. */
    method Clear()
      requires Valid()
      modifies buffer
      ensures Valid() && |Keys()| == |old(Keys())| && forall i :: 0 <= i < |Keys()| ==> Keys()[i] == 0
    {
      for i := 0 to KB_BUFFER_COUNT
        invariant forall j :: 0 <= j < i ==> buffer[j] == 0
      {
        buffer[i] := 0;
      }
    }
  }
}
