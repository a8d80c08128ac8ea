/** Optional values, enumerations of maps and concatenations, as several parts of the model use them. */
module Collections {

  datatype Option<+T> = None | Some(value: T)

  /** `ids` lists the keys of `m`, each of them once. */
  ghost predicate Enumerates<T>(ids: seq<string>, m: map<string, T>) {
    && (forall i :: 0 <= i < |ids| ==> ids[i] in m)
    && (forall id :: id in m ==> id in ids)
    && forall i, j :: 0 <= i < j < |ids| ==> ids[i] != ids[j]
  }

  ghost function Concat<T>(chunks: seq<seq<T>>): seq<T> {
    if chunks == [] then [] else Concat(chunks[..|chunks| - 1]) + chunks[|chunks| - 1]
  }
}
