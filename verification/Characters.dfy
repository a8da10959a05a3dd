/** Character classes of the ASCII formats the programs read. */
module Characters {

  predicate LowerHex(c: char) { '0' <= c <= '9' || 'a' <= c <= 'f' }

  predicate Hex(s: string, length: nat) { |s| == length && forall i :: 0 <= i < |s| ==> LowerHex(s[i]) }

  /** ASCII lower case. */
  function Lower(s: string): string {
    seq(|s|, i requires 0 <= i < |s| => if 'A' <= s[i] <= 'Z' then s[i] - 'A' + 'a' else s[i])
  }
}
