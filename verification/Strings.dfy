/** Searching in strings, as the term matcher and the line patcher do. */
module Strings {

  predicate OccursAt(s: string, sub: string, i: nat) {
    i + |sub| <= |s| && s[i..i + |sub|] == sub
  }
}
