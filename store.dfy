/** The item store of the two-level list editor: heads holding ordered items,
    the capacities of structs.h, and the array shifts used to keep both levels
    contiguous. */
module Store {
  const MAX_NAME_LENGTH: int := 48
  const MAX_TASKS_PER_HEAD: int := 12
  const MAX_HEADS: int := 8

  datatype Option<T> = None | Some(value: T)

  /** A named head with its live items (the first task_count slots of its array). */
  datatype Head<T> = Head(id: int, name: string, tasks: seq<T>)

  /** No more than MAX_HEADS heads and no more than MAX_TASKS_PER_HEAD items per head. */
  predicate WithinCapacity<T>(heads: seq<Head<T>>) {
    |heads| <= MAX_HEADS && forall h :: 0 <= h < |heads| ==> |heads[h].tasks| <= MAX_TASKS_PER_HEAD
  }

  /** The items s[p..] move one place right and x takes position p. */
  function InsertAt<T>(s: seq<T>, p: nat, x: T): (r: seq<T>)
    requires p <= |s|
    ensures |r| == |s| + 1 && r[p] == x
    ensures forall i :: 0 <= i < p ==> r[i] == s[i]
    ensures forall i :: p < i < |r| ==> r[i] == s[i - 1]
    ensures multiset(r) == multiset(s) + multiset{x}
  {
    assert s == s[..p] + s[p..];
    s[..p] + [x] + s[p..]
  }

  /** The item at p goes and s[p+1..] moves one place left. */
  function RemoveAt<T>(s: seq<T>, p: nat): (r: seq<T>)
    requires p < |s|
    ensures |r| == |s| - 1
    ensures forall i :: 0 <= i < p ==> r[i] == s[i]
    ensures forall i :: p <= i < |r| ==> r[i] == s[i + 1]
    ensures multiset(r) + multiset{s[p]} == multiset(s)
  {
    assert s == s[..p] + [s[p]] + s[p+1..];
    s[..p] + s[p+1..]
  }

  /** memmove of s[p+1..] one place left, then dropping the last slot, is RemoveAt. */
  lemma ShiftLeftRemoves<T>(s: seq<T>, p: nat)
    requires p < |s|
    ensures (s[..p] + s[p + 1..] + [s[|s| - 1]])[..|s| - 1] == RemoveAt(s, p)
  {
    assert |s[..p] + s[p + 1..]| == |s| - 1;
  }

  /** Deleting what was just inserted gives back the original sequence. */
  lemma RemoveInsert<T>(s: seq<T>, p: nat, x: T)
    requires p <= |s|
    ensures RemoveAt(InsertAt(s, p, x), p) == s
  {
  }

  /** Inserting what was just deleted, at the same place, gives back the original sequence. */
  lemma InsertRemove<T>(s: seq<T>, p: nat)
    requires p < |s|
    ensures InsertAt(RemoveAt(s, p), p, s[p]) == s
  {
  }

  /** Exchange the neighbours at i and i + 1. */
  function SwapAdjacent<T>(s: seq<T>, i: nat): (r: seq<T>)
    requires i + 1 < |s|
    ensures |r| == |s| && r[i] == s[i + 1] && r[i + 1] == s[i]
    ensures forall j :: 0 <= j < |s| && j != i && j != i + 1 ==> r[j] == s[j]
  {
    s[i := s[i + 1]][i + 1 := s[i]]
  }

  lemma SwapTwice<T>(s: seq<T>, i: nat)
    requires i + 1 < |s|
    ensures SwapAdjacent(SwapAdjacent(s, i), i) == s
  {
  }

  /** All items of all heads in display order. */
  function Flatten<T>(heads: seq<Head<T>>): seq<T>
  {
    if heads == [] then [] else heads[0].tasks + Flatten(heads[1..])
  }

  /** Number of items in the heads before h: the flattened index of heads[h].tasks[0]. */
  function Offset<T>(heads: seq<Head<T>>, h: nat): nat
    requires h <= |heads|
  {
    if h == 0 then 0 else Offset(heads, h - 1) + |heads[h - 1].tasks|
  }

  /** Number of items in all heads (the total_tasks loop of the input handlers). */
  function Total<T>(heads: seq<Head<T>>): nat
  {
    Offset(heads, |heads|)
  }

  lemma {:induction false} FlattenAppend<T>(a: seq<Head<T>>, b: seq<Head<T>>)
    ensures Flatten(a + b) == Flatten(a) + Flatten(b)
  {
    if a == [] {
      assert a + b == b;
    } else {
      assert (a + b)[0] == a[0];
      assert (a + b)[1..] == a[1..] + b;
      FlattenAppend(a[1..], b);
    }
  }

  /** The flattened sequence splits around head h. */
  lemma FlattenAround<T>(heads: seq<Head<T>>, h: nat)
    requires h < |heads|
    ensures Flatten(heads) == Flatten(heads[..h]) + heads[h].tasks + Flatten(heads[h + 1..])
  {
    var tail := heads[h..];
    assert heads == heads[..h] + tail;
    FlattenAppend(heads[..h], tail);
    FlattenCons(tail);
    assert tail[1..] == heads[h + 1..];
  }

  /** The flattened sequence starts with the first head's items. */
  lemma FlattenCons<T>(heads: seq<Head<T>>)
    requires heads != []
    ensures Flatten(heads) == heads[0].tasks + Flatten(heads[1..])
  {
  }

  /** Replacing one head's items changes the flattened sequence only in that head's stretch. */
  lemma FlattenUpdate<T>(heads: seq<Head<T>>, h: nat, hd: Head<T>)
    requires h < |heads|
    ensures Flatten(heads[h := hd]) == Flatten(heads[..h]) + hd.tasks + Flatten(heads[h + 1..])
  {
    FlattenAround(heads[h := hd], h);
    assert heads[h := hd][..h] == heads[..h];
    assert heads[h := hd][h + 1..] == heads[h + 1..];
  }

  /** Total counts exactly the flattened items. */
  lemma TotalFlatten<T>(heads: seq<Head<T>>)
    ensures Total(heads) == |Flatten(heads)|
  {
    OffsetFlatten(heads, |heads|);
    assert heads[..|heads|] == heads;
  }

  /** Replacing two neighbouring heads changes the flattened sequence only in their stretch. */
  lemma FlattenPair<T>(heads: seq<Head<T>>, h: nat, a: Head<T>, b: Head<T>)
    requires h + 1 < |heads|
    ensures Flatten(heads) == Flatten(heads[..h]) + heads[h].tasks + heads[h + 1].tasks + Flatten(heads[h + 2..])
    ensures Flatten(heads[h := a][h + 1 := b]) == Flatten(heads[..h]) + a.tasks + b.tasks + Flatten(heads[h + 2..])
  {
    var hs := heads[h := a][h + 1 := b];
    FlattenAround(heads, h);
    FlattenAround(hs, h);
    assert heads[h + 1..][0] == heads[h + 1] && heads[h + 1..][1..] == heads[h + 2..];
    assert hs[h + 1..][0] == b && hs[h + 1..][1..] == heads[h + 2..];
    assert hs[..h] == heads[..h];
  }

  /** The number of items counted by Total is the length of the flattened sequence. */
  lemma {:induction false} OffsetFlatten<T>(heads: seq<Head<T>>, h: nat)
    requires h <= |heads|
    ensures Offset(heads, h) == |Flatten(heads[..h])|
  {
    if h > 0 {
      OffsetFlatten(heads, h - 1);
      assert heads[..h] == heads[..h - 1] + [heads[h - 1]];
      FlattenAppend(heads[..h - 1], [heads[h - 1]]);
      assert Flatten([heads[h - 1]]) == heads[h - 1].tasks + Flatten([]);
    }
  }

  /** Offsets grow by the counts of the heads in between. */
  lemma {:induction false} OffsetMonotone<T>(heads: seq<Head<T>>, a: nat, b: nat)
    requires a <= b <= |heads|
    ensures Offset(heads, a) <= Offset(heads, b)
    ensures a < b ==> Offset(heads, a) + |heads[a].tasks| <= Offset(heads, b)
    decreases b - a
  {
    if a < b {
      OffsetMonotone(heads, a, b - 1);
    }
  }

  // ---------------------------------------------------------------------------
  // Names

  /** strncpy into a buffer of n + 1 bytes followed by a terminating NUL: at most
      the first n characters survive. */
  function Truncate(s: string, n: nat): (r: string)
    ensures |r| <= n && |r| <= |s| && r == s[..|r|]
    ensures |s| <= n <==> r == s
  {
    if |s| <= n then s else s[..n]
  }

  /** The first head at or after index from whose name is name (the strcmp
      loops of the loaders). */
  function FindNamed<T>(heads: seq<Head<T>>, name: string, from: nat): (r: Option<nat>)
    ensures r.Some? ==> (from <= r.value < |heads| && heads[r.value].name == name
      && forall j :: from <= j < r.value ==> heads[j].name != name)
    ensures r.None? <==> forall j :: from <= j < |heads| ==> heads[j].name != name
    decreases |heads| - from
  {
    if from >= |heads| then None
    else if heads[from].name == name then Some(from)
    else FindNamed(heads, name, from + 1)
  }

  /** The strcmp loop itself. */
  method ScanNamed<T>(heads: seq<Head<T>>, name: string, from: nat) returns (found: Option<nat>)
    ensures found == FindNamed(heads, name, from)
  {
    var i := from;
    while i < |heads|
      invariant from <= i || |heads| <= i
      invariant FindNamed(heads, name, from) == FindNamed(heads, name, i)
      decreases |heads| - i
    {
      if heads[i].name == name {
        return Some(i);
      }
      i := i + 1;
    }
    return None;
  }

  /** A name that only the last head carries is found there. */
  lemma {:induction false} FindNamedLast<T>(heads: seq<Head<T>>, name: string, from: nat)
    requires from < |heads| && heads[|heads| - 1].name == name
    requires forall j :: from <= j < |heads| - 1 ==> heads[j].name != name
    ensures FindNamed(heads, name, from) == Some(|heads| - 1)
    decreases |heads| - from
  {
    if from < |heads| - 1 {
      FindNamedLast(heads, name, from + 1);
    }
  }

  /** No two heads share a name. */
  predicate DistinctNames<T>(heads: seq<Head<T>>) {
    forall i, j :: 0 <= i < j < |heads| ==> heads[i].name != heads[j].name
  }
}
