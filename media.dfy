/** The entities shared by every part of the reconciliation engine: the media
    kinds, the item record stored in a collection, its identity key, the two
    string primitives the source borrows from Python, and the cooperative
    cancellation polls. */
module Media {

  /** The value of the media-type selector: "movie" or "show". */
  datatype MediaType = Movie | Show

  /** One desired title: `{"title": str, "year": int, "found": bool}`. */
  datatype Item = Item(title: string, year: int, found: bool)

  /** Python's `str.lower`, and `SequenceMatcher(None, a, b).ratio() > 0.9`
      on already-lowered strings. Both are Unicode / floating-point library
      routines, so the engine is modelled for every choice of them. */
  datatype Collation = Collation(lower: string -> string, similar: (string, string) -> bool)

  /** The identity key `(title.lower(), year)` used by the merge. */
  type Key = (string, int)

  function KeyOf(it: Item, lower: string -> string): Key {
    (lower(it.title), it.year)
  }

  /** Two item lists name the same titles and years, position by position
      (the `found` flags may differ). */
  predicate SameTitles(a: seq<Item>, b: seq<Item>) {
    |a| == |b| && forall j :: 0 <= j < |a| ==> a[j].title == b[j].title && a[j].year == b[j].year
  }

  /** The position of the first poll at which a cancel flag reads as set,
      among polls 0 .. n-1; n when it is never set there. */
  function FirstSet(flag: nat -> bool, n: nat): (k: nat)
    ensures k <= n
    ensures k < n ==> flag(k)
    ensures forall i :: 0 <= i < k ==> !flag(i)
  {
    FirstSetFrom(flag, 0, n)
  }

  function FirstSetFrom(flag: nat -> bool, from: nat, n: nat): (k: nat)
    requires from <= n
    requires forall i :: 0 <= i < from ==> !flag(i)
    ensures from <= k <= n
    ensures k < n ==> flag(k)
    ensures forall i :: 0 <= i < k ==> !flag(i)
    decreases n - from
  {
    if from == n || flag(from) then from else FirstSetFrom(flag, from + 1, n)
  }
}
