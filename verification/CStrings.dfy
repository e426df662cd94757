/** NUL-terminated strings and what a substring search has to return. */
module CStrings {
  import opened Options

  /** An unsigned char. */
  type Char = c: int | 0 <= c < 0x100

  /** s holds a string of length len: no NUL before index len, where there is one. */
  ghost predicate IsString(s: seq<Char>, len: nat) {
    len < |s| && s[len] == 0 && forall i :: 0 <= i < len ==> s[i] != 0
  }

  /** The needle n of length l occurs at i in the haystack h of length hl. */
  ghost predicate OccursAt(h: seq<Char>, hl: nat, n: seq<Char>, l: nat, i: nat)
    requires hl <= |h| && l <= |n|
  {
    i + l <= hl && forall j :: 0 <= j < l ==> h[i + j] == n[j]
  }

  ghost predicate NoneBefore(h: seq<Char>, hl: nat, n: seq<Char>, l: nat, end: nat)
    requires hl <= |h| && l <= |n|
  {
    forall i: nat :: i < end ==> !OccursAt(h, hl, n, l, i)
  }

  /** The specification of strstr: the first occurrence, or none if there is none. */
  ghost predicate IsFirst(h: seq<Char>, hl: nat, n: seq<Char>, l: nat, r: Option<nat>)
    requires hl <= |h| && l <= |n|
  {
    match r
    case Some(i) => OccursAt(h, hl, n, l, i) && NoneBefore(h, hl, n, l, i)
    case None => forall i: nat :: !OccursAt(h, hl, n, l, i)
  }
}
