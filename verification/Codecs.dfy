/** The library calls the mount makes, as values. Only what is stated here is known about them. */
module Codecs {

  datatype Codec = Codec(
    digest: string -> string,   // hex of the SHA-256 of a byte string
    stamp: int -> string,       // an instant as RFC 3339 with nanoseconds
    date: int -> string,        // an instant as RFC 3339
    quote: string -> string     // a string as Go's %q prints it
  )

  /** The delimiter of receipts and of tree digests. */
  const BAR: char := '|'

  predicate IsHex(c: char) { '0' <= c <= '9' || 'a' <= c <= 'f' }

  predicate IsHash(s: string) { |s| == 64 && forall i :: 0 <= i < |s| ==> IsHex(s[i]) }

  /** Digests are 64 hex characters, and stamps are bar-free and tell instants apart. Nothing says
      that digests of different strings differ. */
  ghost predicate WellFormed(c: Codec) {
    && (forall s :: IsHash(c.digest(s)))
    && (forall t :: BAR !in c.stamp(t))
    && (forall t, u :: c.stamp(t) == c.stamp(u) ==> t == u)
  }
}
