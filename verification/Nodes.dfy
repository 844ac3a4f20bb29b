/** Node identities (src/lib.rs:28-46): strings over the URL-safe alphabet of section 5 of RFC 4648. */
module Nodes {
  type NodeId = string

  predicate IsIdChar(c: char) {
    'A' <= c <= 'Z' || 'a' <= c <= 'z' || '0' <= c <= '9' || c == '-' || c == '_'
  }

  /**
   Which strings `NodeId::parse` accepts is up to the base64 decoder. All that is used of it is
   that it accepts nothing outside the alphabet.
   */
  ghost predicate IdScheme(valid: string -> bool) {
    forall s: string | valid(s) :: forall i: nat | i < |s| :: IsIdChar(s[i])
  }
}
