/** The chunked credential store (src/anafpy/auth/store.py): a token set's JSON split
    over the entries `username`, `username#1`, `username#2`, ... of an OS keyring must
    behave like the single cell of the in-memory store. */
module KeyringStore {
  import opened Wrappers
  import opened Numerals

  type Entries = map<string, string>

  /** One service of the OS credential store: any program may have left entries in it. */
  class CredentialStore {
    var entries: Entries

    method GetPassword(name: string) returns (secret: Option<string>)
      ensures secret == if name in entries then Some(entries[name]) else None
    {
      secret := if name in entries then Some(entries[name]) else None;
    }

    method SetPassword(name: string, secret: string)
      modifies this
      ensures entries == old(entries)[name := secret]
    {
      entries := entries[name := secret];
    }

    method DeletePassword(name: string)
      requires name in entries
      modifies this
      ensures entries == old(entries) - {name}
    {
      entries := entries - {name};
    }
  }

  // ---- Entry names -----------------------------------------------------------------

  function Entry(user: string, index: nat): string {
    if index == 0 then user else user + "#" + Show(index)
  }

  lemma EntryInjective(user: string, i: nat, j: nat)
    ensures Entry(user, i) == Entry(user, j) <==> i == j
  {
    if i != 0 && j != 0 && Entry(user, i) == Entry(user, j) {
      assert Show(i) == Entry(user, i)[|user| + 1..];
      assert Show(j) == Entry(user, j)[|user| + 1..];
      ShowInjective(i, j);
    }
  }

  // ---- Reading: the abstraction to one cell -------------------------------------------

  /** The contiguous chunks from `i` on; a gap ends them. */
  function Stored(m: Entries, user: string, i: nat): seq<string>
    decreases |m|
  {
    var name := Entry(user, i);
    if name !in m then [] else [m[name]] + Stored(m - {name}, user, i + 1)
  }

  function Join(parts: seq<string>): string {
    if parts == [] then "" else parts[0] + Join(parts[1..])
  }

  /** What the keyring holds, seen as the in-memory store's one field. */
  function Cell(m: Entries, user: string): Option<string> {
    if Entry(user, 0) !in m then None else Some(Join(Stored(m, user, 0)))
  }

  /** Chunks from `i` on do not depend on an entry before `i`. */
  lemma {:induction false} StoredIgnoresEarlier(m: Entries, user: string, j: nat, i: nat)
    requires j < i
    ensures Stored(m - {Entry(user, j)}, user, i) == Stored(m, user, i)
    decreases |m|
  {
    var name := Entry(user, i);
    EntryInjective(user, i, j);
    if name !in m {
    } else {
      StoredIgnoresEarlier(m - {name}, user, j, i + 1);
      assert m - {Entry(user, j)} - {name} == m - {name} - {Entry(user, j)};
    }
  }

  lemma StoredStep(m: Entries, user: string, i: nat)
    requires Entry(user, i) in m
    ensures Stored(m, user, i) == [m[Entry(user, i)]] + Stored(m, user, i + 1)
  {
    StoredIgnoresEarlier(m, user, i, i + 1);
  }

  lemma Regroup(parts: seq<string>, chunk: string, rest: seq<string>)
    ensures parts + ([chunk] + rest) == (parts + [chunk]) + rest
  {
  }

  // ---- Writing ---------------------------------------------------------------------

  function Slices(data: string, size: nat): seq<string>
    requires size > 0
  {
    if data == "" then []
    else if |data| <= size then [data]
    else [data[..size]] + Slices(data[size..], size)
  }

  /** `chunk_size or len(data)`, then `range(0, len(data), size)`: a negative step gives
      no chunk at all. */
  function Chunks(data: string, chunkSize: Option<int>): seq<string> {
    var size := if chunkSize.Some? && chunkSize.value != 0 then chunkSize.value else |data|;
    if size <= 0 then [] else Slices(data, size)
  }

  function Written(m: Entries, user: string, chunks: seq<string>, i: nat): Entries
    decreases |chunks|
  {
    if chunks == [] then m else Written(m[Entry(user, i) := chunks[0]], user, chunks[1..], i + 1)
  }

  function ClearedFrom(m: Entries, user: string, i: nat): Entries
    decreases |m|
  {
    if Entry(user, i) !in m then m else ClearedFrom(m - {Entry(user, i)}, user, i + 1)
  }

  function Saved(m: Entries, user: string, chunkSize: Option<int>, data: string): Entries {
    var chunks := Chunks(data, chunkSize);
    ClearedFrom(Written(m, user, chunks, 0), user, |chunks|)
  }

  class KeyringTokenStore {
    const ring: CredentialStore
    const user: string
    const chunkSize: Option<int>

    constructor (ring: CredentialStore, user: string, chunkSize: Option<int>)
      ensures this.ring == ring && this.user == user && this.chunkSize == chunkSize
    {
      this.ring, this.user, this.chunkSize := ring, user, chunkSize;
    }

    /** The stored text, or `None`. (Parsing it back into a token set is not modelled.) */
    method Load() returns (text: Option<string>)
      ensures text == Cell(ring.entries, user)
    {
      var first := ring.GetPassword(Entry(user, 0));
      if first.None? {
        return None;
      }
      var parts := [first.value];
      StoredStep(ring.entries, user, 0);
      var chunk := ring.GetPassword(Entry(user, |parts|));
      while chunk.Some?
        invariant Stored(ring.entries, user, 0) == parts + Stored(ring.entries, user, |parts|)
        invariant chunk == if Entry(user, |parts|) in ring.entries then Some(ring.entries[Entry(user, |parts|)]) else None
        decreases |Stored(ring.entries, user, 0)| - |parts|
      {
        StoredStep(ring.entries, user, |parts|);
        Regroup(parts, chunk.value, Stored(ring.entries, user, |parts| + 1));
        parts := parts + [chunk.value];
        chunk := ring.GetPassword(Entry(user, |parts|));
      }
      assert parts + [] == parts;
      return Some(Join(parts));
    }

    method Save(data: string)
      modifies ring
      ensures ring.entries == Saved(old(ring.entries), user, chunkSize, data)
    {
      var chunks := Chunks(data, chunkSize);
      for index := 0 to |chunks|
        invariant Written(ring.entries, user, chunks[index..], index) == Written(old(ring.entries), user, chunks, 0)
      {
        ring.SetPassword(Entry(user, index), chunks[index]);
        assert chunks[index..][1..] == chunks[index + 1..];
      }
      DropFrom(|chunks|);
    }

    method Clear()
      modifies ring
      ensures ring.entries == ClearedFrom(old(ring.entries), user, 0)
    {
      DropFrom(0);
    }

    /** The loop both writers end with: delete entries from `start` until one is missing. */
    method DropFrom(start: nat)
      modifies ring
      ensures ring.entries == ClearedFrom(old(ring.entries), user, start)
    {
      var index := start;
      var present := ring.GetPassword(Entry(user, index));
      while present.Some?
        invariant ClearedFrom(ring.entries, user, index) == ClearedFrom(old(ring.entries), user, start)
        invariant present.Some? <==> Entry(user, index) in ring.entries
        decreases |ring.entries|
      {
        ring.DeletePassword(Entry(user, index));
        index := index + 1;
        present := ring.GetPassword(Entry(user, index));
      }
    }
  }

  // ---- What a save leaves behind -------------------------------------------------------

  lemma {:induction false} JoinSlices(data: string, size: nat)
    requires size > 0
    ensures Join(Slices(data, size)) == data
  {
    if |data| <= size {
    } else {
      JoinSlices(data[size..], size);
      assert data == data[..size] + data[size..];
    }
  }

  predicate SameEntry(m: Entries, n: Entries, name: string) {
    (name in m <==> name in n) && (name in m ==> m[name] == n[name])
  }

  /** The chunks of a text: all of it in one entry without a chunk size (or with zero), and
      otherwise pieces that fit. */
  lemma ChunksExactly(data: string, chunkSize: Option<int>)
    requires data != ""
    ensures chunkSize.None? || chunkSize.value == 0 ==> Chunks(data, chunkSize) == [data]
    ensures chunkSize.Some? && chunkSize.value > 0 ==> Fit(Chunks(data, chunkSize), chunkSize.value) && Join(Chunks(data, chunkSize)) == data
    ensures chunkSize.Some? && chunkSize.value < 0 ==> Chunks(data, chunkSize) == []
  {
    if chunkSize.Some? && chunkSize.value > 0 {
      SlicesFit(data, chunkSize.value);
      JoinSlices(data, chunkSize.value);
    }
  }

  /** The entries' names: the user name, and then the user name, "#" and the number. */
  lemma EntryNames(user: string, index: nat) returns (digits: string)
    ensures Entry(user, 0) == user
    ensures index > 0 ==> Entry(user, index) == user + "#" + digits && AllDigits(digits) && Value(digits) == index && digits[0] != '0'
  {
    digits := Show(index);
    ShowIsDigits(index);
    ValueOfShow(index);
    ShowIsCanonical(index);
  }

  /** Setting or deleting entry `i` leaves entry `k` alone. */
  lemma OtherEntry(m: Entries, user: string, i: nat, k: nat, text: string)
    requires i != k
    ensures SameEntry(m[Entry(user, i) := text], m, Entry(user, k))
    ensures SameEntry(m - {Entry(user, i)}, m, Entry(user, k))
  {
    EntryInjective(user, i, k);
  }

  predicate Fit(chunks: seq<string>, size: nat) {
    && (forall i | 0 <= i < |chunks| :: 0 < |chunks[i]| <= size)
    && (forall i | 0 <= i < |chunks| - 1 :: |chunks[i]| == size)
  }

  /** No entry outgrows the credential store's cap, and all chunks but the last are full. */
  lemma {:induction false} SlicesFit(data: string, size: nat)
    requires size > 0
    ensures Fit(Slices(data, size), size)
  {
    if |data| <= size {
    } else {
      SlicesFit(data[size..], size);
    }
  }

  lemma {:induction false} WrittenAt(m: Entries, user: string, chunks: seq<string>, i: nat, k: nat)
    ensures var w := Written(m, user, chunks, i);
            if i <= k < i + |chunks| then Entry(user, k) in w && w[Entry(user, k)] == chunks[k - i]
            else SameEntry(w, m, Entry(user, k))
    decreases |chunks|
  {
    if chunks == [] {
    } else {
      WrittenAt(m[Entry(user, i) := chunks[0]], user, chunks[1..], i + 1, k);
      if i != k {
        OtherEntry(m, user, i, k, chunks[0]);
      }
    }
  }

  /** Clearing from `i` removes the contiguous entries from `i` on, and no other. */
  lemma {:induction false} ClearedAt(m: Entries, user: string, i: nat, k: nat)
    ensures var c := ClearedFrom(m, user, i);
            if i <= k < i + |Stored(m, user, i)| then Entry(user, k) !in c else SameEntry(c, m, Entry(user, k))
    decreases |m|
  {
    if Entry(user, i) !in m {
    } else {
      ClearedAt(m - {Entry(user, i)}, user, i + 1, k);
      if i != k {
        OtherEntry(m, user, i, k, "");
      }
    }
  }

  /** Chunks that are in place from `i` on are what is read, and then what follows them. */
  lemma {:induction false} StoredPrefix(m: Entries, user: string, chunks: seq<string>, i: nat)
    requires i <= |chunks|
    requires forall k | i <= k < |chunks| :: Entry(user, k) in m && m[Entry(user, k)] == chunks[k]
    ensures Stored(m, user, i) == chunks[i..] + Stored(m, user, |chunks|)
    decreases |chunks| - i
  {
    if i == |chunks| {
    } else {
      StoredStep(m, user, i);
      StoredPrefix(m, user, chunks, i + 1);
      Prepend(chunks, i, Stored(m, user, |chunks|));
    }
  }

  lemma Prepend(chunks: seq<string>, i: nat, rest: seq<string>)
    requires i < |chunks|
    ensures [chunks[i]] + (chunks[i + 1..] + rest) == chunks[i..] + rest
  {
  }

  /** Whatever was there before (gaps and orphans included), a save leaves exactly the
      new chunks readable. */
  lemma SavedChunks(m: Entries, user: string, chunks: seq<string>)
    ensures Stored(ClearedFrom(Written(m, user, chunks, 0), user, |chunks|), user, 0) == chunks
  {
    var w := Written(m, user, chunks, 0);
    var c := ClearedFrom(w, user, |chunks|);
    forall k | 0 <= k < |chunks| ensures Entry(user, k) in c && c[Entry(user, k)] == chunks[k] {
      WrittenAt(m, user, chunks, 0, k);
      ClearedAt(w, user, |chunks|, k);
    }
    ClearedAt(w, user, |chunks|, |chunks|);
    StoredPrefix(c, user, chunks, 0);
    assert chunks[0..] + [] == chunks;
  }

  /** Load after save gives the saved text back, for every chunk size but a negative one. */
  lemma LoadAfterSave(m: Entries, user: string, chunkSize: Option<int>, data: string)
    requires data != ""
    ensures Cell(Saved(m, user, chunkSize, data), user) == Some(data) <==> !(chunkSize.Some? && chunkSize.value < 0)
  {
    var chunks := Chunks(data, chunkSize);
    SavedChunks(m, user, chunks);
    if chunkSize.Some? && chunkSize.value < 0 {
      ClearedAt(m, user, 0, 0);
    } else {
      var size: nat := if chunkSize.Some? && chunkSize.value != 0 then chunkSize.value else |data|;
      JoinSlices(data, size);
    }
  }

  lemma LoadAfterClear(m: Entries, user: string)
    ensures Cell(ClearedFrom(m, user, 0), user) == None
  {
    ClearedAt(m, user, 0, 0);
  }

  /** The store's entries are numbered 0 to n - 1, without orphans. */
  ghost predicate Filled(m: Entries, user: string, n: nat) {
    forall k: nat :: Entry(user, k) in m <==> k < n
  }

  lemma {:induction false} StoredCount(m: Entries, user: string, n: nat, i: nat)
    requires Filled(m, user, n) && i <= n
    ensures |Stored(m, user, i)| == n - i
    decreases n - i
  {
    if i < n {
      StoredStep(m, user, i);
      StoredCount(m, user, n, i + 1);
    }
  }

  /** No piece of a token outlives its deletion: of a store without orphans a clear leaves no
      entry, and a save exactly one entry a chunk. */
  lemma NothingLeftBehind(m: Entries, user: string, n: nat, chunks: seq<string>)
    requires Filled(m, user, n)
    ensures Filled(ClearedFrom(m, user, 0), user, 0)
    ensures Filled(ClearedFrom(Written(m, user, chunks, 0), user, |chunks|), user, |chunks|)
  {
    var w, both := Written(m, user, chunks, 0), if n < |chunks| then |chunks| else n;
    forall k: nat ensures Entry(user, k) in w <==> k < both {
      WrittenAt(m, user, chunks, 0, k);
    }
    StoredCount(m, user, n, 0);
    StoredCount(w, user, both, |chunks|);
    forall k: nat ensures Entry(user, k) !in ClearedFrom(m, user, 0) {
      ClearedAt(m, user, 0, k);
    }
    forall k: nat ensures Entry(user, k) in ClearedFrom(w, user, |chunks|) <==> k < |chunks| {
      ClearedAt(w, user, |chunks|, k);
    }
  }

  /** Neither loop touches an entry outside the store's own family of names. */
  lemma {:induction false} OthersUntouchedByWrite(m: Entries, user: string, chunks: seq<string>, i: nat, name: string)
    requires forall k: nat :: name != Entry(user, k)
    ensures SameEntry(Written(m, user, chunks, i), m, name)
    decreases |chunks|
  {
    if chunks == [] {
    } else {
      OthersUntouchedByWrite(m[Entry(user, i) := chunks[0]], user, chunks[1..], i + 1, name);
    }
  }

  lemma {:induction false} OthersUntouchedByClear(m: Entries, user: string, i: nat, name: string)
    requires forall k: nat :: name != Entry(user, k)
    ensures SameEntry(ClearedFrom(m, user, i), m, name)
    decreases |m|
  {
    if Entry(user, i) !in m {
    } else {
      OthersUntouchedByClear(m - {Entry(user, i)}, user, i + 1, name);
    }
  }

  // ---- Refinement of the one-cell store -------------------------------------------------

  datatype Op = Load | Save(text: string) | Clear

  function RingNext(m: Entries, user: string, chunkSize: Option<int>, op: Op): Entries {
    match op
    case Load => m
    case Save(text) => Saved(m, user, chunkSize, text)
    case Clear => ClearedFrom(m, user, 0)
  }

  /** `MemoryTokenStore`: one field. */
  function CellNext(cell: Option<string>, op: Op): Option<string> {
    match op
    case Load => cell
    case Save(text) => Some(text)
    case Clear => None
  }

  /** Entries under other names, orphans of other programs included, are left alone. */
  lemma OthersUntouched(m: Entries, user: string, chunkSize: Option<int>, op: Op, name: string)
    requires forall k: nat :: name != Entry(user, k)
    ensures SameEntry(RingNext(m, user, chunkSize, op), m, name)
  {
    match op
    case Load =>
    case Save(text) =>
      var chunks := Chunks(text, chunkSize);
      OthersUntouchedByWrite(m, user, chunks, 0, name);
      OthersUntouchedByClear(Written(m, user, chunks, 0), user, |chunks|, name);
    case Clear => OthersUntouchedByClear(m, user, 0, name);
  }

  function RingLoads(m: Entries, user: string, chunkSize: Option<int>, ops: seq<Op>): seq<Option<string>>
    decreases |ops|
  {
    if ops == [] then []
    else (if ops[0].Load? then [Cell(m, user)] else []) + RingLoads(RingNext(m, user, chunkSize, ops[0]), user, chunkSize, ops[1..])
  }

  function CellLoads(cell: Option<string>, ops: seq<Op>): seq<Option<string>>
    decreases |ops|
  {
    if ops == [] then []
    else (if ops[0].Load? then [cell] else []) + CellLoads(CellNext(cell, ops[0]), ops[1..])
  }

  /** Every sequence of operations, from any prior keyring: the loads answer exactly as
      the one-cell store's would. */
  lemma {:induction false} RingRefinesCell(m: Entries, user: string, chunkSize: Option<int>, ops: seq<Op>)
    requires !(chunkSize.Some? && chunkSize.value < 0)
    requires forall i | 0 <= i < |ops| :: ops[i].Save? ==> ops[i].text != ""
    ensures RingLoads(m, user, chunkSize, ops) == CellLoads(Cell(m, user), ops)
    decreases |ops|
  {
    if ops == [] {
    } else {
      match ops[0] {
        case Load =>
        case Save(text) => LoadAfterSave(m, user, chunkSize, text);
        case Clear => LoadAfterClear(m, user);
      }
      RingRefinesCell(RingNext(m, user, chunkSize, ops[0]), user, chunkSize, ops[1..]);
    }
  }

  // ---- A save the credential store interrupts ---------------------------------------------

  lemma {:induction false} StoredFromAgrees(m: Entries, w: Entries, user: string, i: nat)
    requires forall k: nat | k >= i :: SameEntry(m, w, Entry(user, k))
    ensures Stored(m, user, i) == Stored(w, user, i)
    decreases |m|
  {
    var name := Entry(user, i);
    if name !in m {
    } else {
      forall k: nat | k >= i + 1
        ensures SameEntry(m - {name}, w - {name}, Entry(user, k))
      {
        EntryInjective(user, i, k);
      }
      StoredFromAgrees(m - {name}, w - {name}, user, i + 1);
    }
  }

  /** The keyring fails after `k` chunks were written: a load finds them, and then the
      earlier set from its chunk `k` on. It is the new set exactly when what is left of
      the earlier set is what was still to be written (so, with all written, exactly when
      the earlier set was no longer), and the earlier set exactly when the chunks written
      were its own. */
  lemma InterruptedSave(m: Entries, user: string, chunks: seq<string>, k: nat)
    requires k <= |chunks|
    ensures var found := Stored(Written(m, user, chunks[..k], 0), user, 0);
            && found == chunks[..k] + Stored(m, user, k)
            && (found == chunks <==> Stored(m, user, k) == chunks[k..])
            && (k == |chunks| ==> (found == chunks <==> Entry(user, |chunks|) !in m))
            && (k <= |Stored(m, user, 0)| ==> (found == Stored(m, user, 0) <==> chunks[..k] == Stored(m, user, 0)[..k]))
  {
    var first := chunks[..k];
    var w := Written(m, user, first, 0);
    forall j: nat {
      WrittenAt(m, user, first, 0, j);
    }
    StoredPrefix(w, user, first, 0);
    StoredFromAgrees(w, m, user, k);
    var found, rest := Stored(w, user, 0), Stored(m, user, k);
    assert found == first + rest;
    assert found[..k] == first && found[k..] == rest;
    assert chunks == first + chunks[k..];
    if k <= |Stored(m, user, 0)| {
      StoredTail(m, user, 0, k);
      assert Stored(m, user, 0) == Stored(m, user, 0)[..k] + rest;
    }
  }

  /** Reading from a later chunk gives the rest of the same set. */
  lemma {:induction false} StoredTail(m: Entries, user: string, i: nat, k: nat)
    requires i <= k <= i + |Stored(m, user, i)|
    ensures Stored(m, user, i)[k - i..] == Stored(m, user, k)
    decreases k - i
  {
    if i == k {
    } else {
      StoredStep(m, user, i);
      StoredTail(m, user, i + 1, k);
      DropFirst(m[Entry(user, i)], Stored(m, user, i + 1), k - i);
    }
  }

  lemma DropFirst(x: string, s: seq<string>, n: nat)
    requires 0 < n <= |s| + 1
    ensures ([x] + s)[n..] == s[n - 1..]
  {
  }

  /** The keyring fails inside the loop that deletes stale entries, after at most `d`
      deletions. */
  function ClearedSome(m: Entries, user: string, i: nat, d: nat): Entries
    decreases d
  {
    if d == 0 || Entry(user, i) !in m then m else ClearedSome(m - {Entry(user, i)}, user, i + 1, d - 1)
  }

  lemma {:induction false} ClearedSomeAt(m: Entries, user: string, i: nat, d: nat, k: nat)
    requires k <= i
    ensures var c := ClearedSome(m, user, i, d);
            if k == i then Entry(user, k) in c <==> d == 0 && Entry(user, k) in m else SameEntry(c, m, Entry(user, k))
    decreases d
  {
    if d == 0 || Entry(user, i) !in m {
    } else {
      ClearedSomeAt(m - {Entry(user, i)}, user, i + 1, d - 1, k);
      if i != k {
        OtherEntry(m, user, i, k, "");
      }
    }
  }

  /** From the first deletion on, a load finds the new set; before it, only if nothing was
      stale. */
  lemma InterruptedCleanup(m: Entries, user: string, chunks: seq<string>, d: nat)
    ensures var c := ClearedSome(Written(m, user, chunks, 0), user, |chunks|, d);
            Stored(c, user, 0) == chunks <==> d > 0 || Entry(user, |chunks|) !in m
  {
    var w := Written(m, user, chunks, 0);
    var c := ClearedSome(w, user, |chunks|, d);
    forall k | 0 <= k < |chunks| ensures Entry(user, k) in c && c[Entry(user, k)] == chunks[k] {
      WrittenAt(m, user, chunks, 0, k);
      ClearedSomeAt(w, user, |chunks|, d, k);
    }
    WrittenAt(m, user, chunks, 0, |chunks|);
    ClearedSomeAt(w, user, |chunks|, d, |chunks|);
    StoredPrefix(c, user, chunks, 0);
    assert chunks[0..] == chunks;
    assert |Stored(c, user, |chunks|)| == 0 <==> Entry(user, |chunks|) !in c;
  }

  /** A keyring that holds the three chunks `a`, `b`, `c`. */
  function ThreeChunks(user: string, a: string, b: string, c: string): (m: Entries)
    ensures Stored(m, user, 0) == [a, b, c] && Stored(m, user, 2) == [c] && Entry(user, 0) in m
  {
    EntryInjective(user, 0, 1);
    EntryInjective(user, 0, 2);
    EntryInjective(user, 1, 2);
    EntryInjective(user, 0, 3);
    EntryInjective(user, 1, 3);
    EntryInjective(user, 2, 3);
    var m := map[Entry(user, 0) := a, Entry(user, 1) := b, Entry(user, 2) := c];
    StoredStep(m, user, 0);
    StoredStep(m, user, 1);
    StoredStep(m, user, 2);
    m
  }

  lemma TwoOverThree(user: string, a: string, b: string, c: string, x: string, y: string)
    ensures Cell(Written(ThreeChunks(user, a, b, c), user, [x, y], 0), user) == Some(x + y + c)
  {
    var m := ThreeChunks(user, a, b, c);
    InterruptedSave(m, user, [x, y], 2);
    assert [x, y][..2] == [x, y];
    var w := Written(m, user, [x, y], 0);
    assert Stored(w, user, 0) == [x, y] + [c] == [x, y, c];
    WrittenAt(m, user, [x, y], 0, 0);
    JoinThree(x, y, c);
  }

  /** Concretely: "abcdef" is stored in chunks of two, and saving "xyz" over it stops
      before the stale entry is deleted; a load then reads "xyzef". */
  lemma MixedSet(user: string)
    ensures var m := ThreeChunks(user, "ab", "cd", "ef");
            && Cell(m, user) == Some("abcdef")
            && Cell(Written(m, user, Chunks("xyz", Some(2)), 0), user) == Some("xyzef")
            && Cell(Saved(m, user, Some(2), "xyz"), user) == Some("xyz")
  {
    var m := ThreeChunks(user, "ab", "cd", "ef");
    JoinThree("ab", "cd", "ef");
    assert "ab" + "cd" + "ef" == "abcdef";
    TwoOverThree(user, "ab", "cd", "ef", "xy", "z");
    assert "xy" + "z" + "ef" == "xyzef";
    assert Chunks("xyz", Some(2)) == ["xy", "z"] by {
      assert "xyz"[2..] == "z" && "xyz"[..2] == "xy";
    }
    LoadAfterSave(m, user, Some(2), "xyz");
  }

  lemma JoinThree(a: string, b: string, c: string)
    ensures Join([a, b, c]) == a + b + c
  {
    assert [a, b, c][1..] == [b, c] && [b, c][1..] == [c] && [c][1..] == [];
    assert Join([c]) == c;
    assert Join([b, c]) == b + c;
  }
}
