/**
 * The dedup store (main.py:22, 432-454) and the claim step (main.py:199-205).
 * `processed_products.json` is modelled by its content as a value; the
 * in-memory `PROCESSED_PRODUCTS` set is a field of a store object.
 */
module Dedup {
  import opened Wrappers

  /** The content of `processed_products.json`. */
  datatype FileState =
    | Missing                        // no such file
    | Corrupt                        // present, but `json.load` raises `JSONDecodeError`
    | Stored(entries: seq<string>)   // a JSON array of image sources

  /** The set of sources the file holds, reading a missing or corrupt file as empty. */
  function OnDisk(file: FileState): set<string>
  {
    match file
    case Stored(entries) => set x | x in entries
    case _ => {}
  }

  /**
   * `load_processed()`: the set the file holds, the empty set when it is
   * missing; None when it is corrupt, for `json.load` is not guarded here and
   * its exception ends the run.
   */
  function LoadProcessed(file: FileState): Option<set<string>>
  {
    match file
    case Missing => Some({})
    case Corrupt => None
    case Stored(_) => Some(OnDisk(file))
  }

  /** No element appears twice, as in `list(a_set)`. */
  predicate Distinct(s: seq<string>)
  {
    forall i, j :: 0 <= i < j < |s| ==> s[i] != s[j]
  }

  /** `list(s)`: the elements of `s`, each once, in some order. */
  method ListOf(s: set<string>) returns (r: seq<string>)
    ensures Distinct(r)
    ensures forall x :: x in r <==> x in s
    ensures |r| == |s|
  {
    r := [];
    var rest := s;
    while rest != {}
      invariant rest <= s
      invariant Distinct(r)
      invariant forall x :: x in r <==> x in s && x !in rest
      invariant |r| + |rest| == |s|
      decreases |rest|
    {
      var x :| x in rest;
      r := r + [x];
      rest := rest - {x};
    }
  }

  /** What the claim step decides for an item's image source. */
  datatype Decision =
    | Skip          // already processed: `continue` before opening
    | Claimed       // new and non-empty: added and saved, then opened
    | Unclaimed     // empty (no `src`): opened without being recorded

  /** The decision of main.py:199-205 for `src` against the processed set. */
  function Decide(processed: set<string>, src: string): Decision
  {
    if src in processed then Skip
    else if src != "" then Claimed
    else Unclaimed
  }

  /** The processed set after the claim step. */
  function AfterClaim(processed: set<string>, src: string): set<string>
  {
    if Decide(processed, src) == Claimed then processed + {src} else processed
  }

  /** `PROCESSED_PRODUCTS` together with the file it is persisted to. */
  class ProcessedStore {
    /** `PROCESSED_PRODUCTS`. */
    var processed: set<string>
    /** The content of `processed_products.json`. */
    var file: FileState

    /** Everything in memory has been persisted. */
    ghost predicate Persisted()
      reads this
    {
      processed <= OnDisk(file)
    }

    constructor (initial: FileState)
      ensures processed == {} && file == initial
    {
      processed := {};
      file := initial;
    }

    /** `PROCESSED_PRODUCTS = load_processed()`; `ok` is false where the load raises. */
    method Load() returns (ok: bool)
      modifies this`processed
      ensures ok <==> !file.Corrupt?
      ensures ok ==> processed == OnDisk(file) && Persisted()
      ensures !ok ==> processed == old(processed)
    {
      var loaded := LoadProcessed(file);
      ok := loaded.Some?;
      if ok {
        processed := loaded.value;
      }
    }

    /**
     * `save_processed()`: read the file afresh (missing or corrupt reads as
     * empty), and overwrite it with the union of that and the in-memory set,
     * each entry once. Entries written by another process since the load
     * survive, and the stored set never loses an entry.
     */
    method Save()
      modifies this`file
      ensures file.Stored? && Distinct(file.entries)
      ensures OnDisk(file) == OnDisk(old(file)) + processed
      ensures Persisted()
    {
      var oldData := OnDisk(file);
      var combined := ListOf(oldData + processed);
      file := Stored(combined);
    }

    /**
     * The claim step for one item's image source: skip a known source, add
     * and save a new non-empty one before the item is opened, and let an
     * empty one through unrecorded.
     */
    method Claim(src: string) returns (d: Decision)
      modifies this
      ensures d == Decide(old(processed), src)
      ensures processed == AfterClaim(old(processed), src)
      ensures d == Claimed ==> src in OnDisk(file) && Persisted()
      ensures d == Claimed ==> OnDisk(file) == OnDisk(old(file)) + processed
      ensures d != Claimed ==> file == old(file)
      ensures old(Persisted()) ==> Persisted()
    {
      if src in processed {
        return Skip;
      }
      if src != "" {
        processed := processed + {src};
        Save();
        return Claimed;
      }
      return Unclaimed;
    }
  }
}
