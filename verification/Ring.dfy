/**
  Ring buffers, as several drivers keep them: a fixed array, an index to write and an index to read, both going
  round. Equal indexes mean an empty ring, so a ring of n cells holds at most n - 1 entries.
 */
module Ring {

  /** The entries of a ring from one index up to another. */
  function Entries<T>(data: seq<T>, start: nat, end: nat): seq<T>
    requires start < |data| && end < |data|
  {
    if start <= end then data[start..end] else data[start..] + data[..end]
  }

  function Next(i: nat, size: nat): nat {
    if i + 1 == size then 0 else i + 1
  }

  /** Writing to the last free cell makes the indexes equal, and all the entries are lost. */
  function Added<T>(entries: seq<T>, entry: T, size: nat): seq<T> {
    if |entries| + 1 < size then entries + [entry] else []
  }

  lemma EntriesAfterWrite<T>(data: seq<T>, start: nat, end: nat, entry: T)
    requires start < |data| && end < |data|
    ensures Entries(data[end := entry], start, Next(end, |data|)) == Added(Entries(data, start, end), entry, |data|)
  {
  }

  lemma EntriesAfterRead<T>(data: seq<T>, start: nat, end: nat)
    requires start < |data| && end < |data| && start != end
    ensures Entries(data, start, end) == [data[start]] + Entries(data, Next(start, |data|), end)
  {
  }

  lemma EntriesEmpty<T>(data: seq<T>, start: nat, end: nat)
    requires start < |data| && end < |data|
    ensures Entries(data, start, end) == [] <==> start == end
  {
  }
}
