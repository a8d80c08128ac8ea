/** Policy keys, results, policies, buckets and databases of buckets. */
module PolicyTypes {

  newtype PolicyType = n: int | 0 <= n < 0x10000

  const DENY: PolicyType := 0
  const NONE: PolicyType := 1
  const BUCKET: PolicyType := 0xFFFE
  const ALLOW: PolicyType := 0xFFFF

  const Wildcard := "*"
  const Any := "#"

  datatype PolicyKey = PolicyKey(client: string, user: string, privilege: string)

  datatype PolicyResult = PolicyResult(policyType: PolicyType, metadata: string) {
    /** The comparison of a result with a bare policy type. */
    predicate Is(t: PolicyType) { policyType == t && metadata == "" }
  }

  datatype Policy = Policy(key: PolicyKey, result: PolicyResult)

  /** The policies of a bucket are indexed by their glued keys. */
  datatype Bucket = Bucket(id: string, defaultPolicy: PolicyResult, policies: map<string, Policy>)

  type Database = map<string, Bucket>

  const DefaultBucket := ""

  predicate FeatureMatchesFilter(value: string, filter: string) { filter == Any || value == filter }

  predicate MatchesFilter(key: PolicyKey, filter: PolicyKey) {
    && FeatureMatchesFilter(key.client, filter.client)
    && FeatureMatchesFilter(key.user, filter.user)
    && FeatureMatchesFilter(key.privilege, filter.privilege)
  }

  predicate FeatureCovers(rule: string, value: string) { rule == value || rule == Wildcard }

  /** A policy stored for `rule` applies to a check of `key`. */
  predicate Covers(rule: PolicyKey, key: PolicyKey) {
    && FeatureCovers(rule.client, key.client)
    && FeatureCovers(rule.user, key.user)
    && FeatureCovers(rule.privilege, key.privilege)
  }

  predicate AlphaNumeric(c: char) {
    'a' <= c <= 'z' || 'A' <= c <= 'Z' || '0' <= c <= '9'
  }

  /**
   The characters a bucket id may have.  The separators are searched with
   `strchr`, which also finds the terminator of the separator string, so the
   code accepts the NUL character.
   */
  predicate IdChar(c: char) { AlphaNumeric(c) || c == '-' || c == '_' || c == '\0' }

  predicate ValidId(id: string) { forall c :: c in id ==> IdChar(c) }
}
