/** The key type of the lookup cache (`domain-name-query-types/src/lib.rs`): a name and the
    record type asked for it. */
module DomainNameQueryTypes {
  /** The record types the resolver asks for; only address records are supported. */
  datatype QType = A

  /** `Display for QType`: the record type's name as it is written in zone files. */
  function Display(q: QType): (s: string)
    ensures |s| == 1 && s[0] == 'A'
  {
    match q
    case A => "A"
  }

  type Name = string

  /** Equality is derived, so it is structural over both fields. */
  datatype NameQuery = NameQuery(name: Name, qType: QType)

  /** `NameQuery::a_record`: an address query for the name. */
  function ARecord(name: Name): (q: NameQuery)
    ensures q.name == name && q.qType == A
  {
    NameQuery(name, A)
  }

  /** Two address queries are the same cache key exactly when their names are equal. */
  lemma ARecordSameKey(a: Name, b: Name)
    ensures ARecord(a) == ARecord(b) <==> a == b
  {
  }

  /** A query is determined by its name alone, since there is only one record type. */
  lemma QueryIsARecord(q: NameQuery)
    ensures q == ARecord(q.name)
  {
  }
}
