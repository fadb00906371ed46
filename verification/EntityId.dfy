/** The textual form of an entity ID: a lowercase UUIDv7. */
module EntityId {
  import opened Base

  const HYPHENS := {8, 13, 18, 23}

  predicate IsHexDigit(c: char) {
    '0' <= c <= '9' || 'a' <= c <= 'f'
  }

  predicate IsEntityId(text: string) {
    && |text| == 36
    && text[8] == '-' && text[13] == '-' && text[18] == '-' && text[23] == '-'
    && text[14] == '7'
    && text[19] in "89ab"
    && forall i | 0 <= i < |text| && i !in HYPHENS :: IsHexDigit(text[i])
  }
}
