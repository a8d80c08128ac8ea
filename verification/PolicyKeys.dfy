/** The strings that stand for policy keys in hash maps, and why they never collide. */
module PolicyKeys {
  import opened PolicyTypes

  // ----- decimal numbers -----

  function Digit(d: nat): char
    requires d < 10
  {
    (d + 48) as char
  }

  function Decimal(n: nat): (s: string)
    ensures s != [] && forall c :: c in s ==> '0' <= c <= '9'
  {
    if n < 10 then [Digit(n)] else Decimal(n / 10) + [Digit(n % 10)]
  }

  ghost function DecimalValue(s: string): int {
    if s == [] then 0 else 10 * DecimalValue(s[..|s| - 1]) + (s[|s| - 1] as int - 48)
  }

  lemma {:induction false} DecimalRoundTrip(n: nat)
    ensures DecimalValue(Decimal(n)) == n
  {
    var s := Decimal(n);
    if n < 10 {
      assert s[..0] == [];
    } else {
      DecimalRoundTrip(n / 10);
      assert s[..|s| - 1] == Decimal(n / 10);
    }
  }

  lemma DecimalInjective(m: nat, n: nat)
    requires Decimal(m) == Decimal(n)
    ensures m == n
  {
    DecimalRoundTrip(m);
    DecimalRoundTrip(n);
  }

  // ----- splitting at the last separator -----

  lemma SplitLast(a: string, x: string, b: string, y: string, sep: char)
    requires a + [sep] + x == b + [sep] + y && sep !in x && sep !in y
    ensures a == b && x == y
  {
    var s := a + [sep] + x;
    assert s[|a|] == sep && s[|b|] == sep;
    assert |a| == |b|;
    assert s[..|a|] == a && s[..|b|] == b;
    assert s[|a| + 1..] == x && s[|b| + 1..] == y;
  }

  /** `body` followed by three lengths, each after a separator. */
  function WithLengths(body: string, sep: char, i: nat, j: nat, k: nat): string {
    body + [sep] + Decimal(i) + [sep] + Decimal(j) + [sep] + Decimal(k)
  }

  lemma WithLengthsInjective(body: string, body': string, sep: char,
                             i: nat, j: nat, k: nat, i': nat, j': nat, k': nat)
    requires sep < '0' || sep > '9'
    requires WithLengths(body, sep, i, j, k) == WithLengths(body', sep, i', j', k')
    ensures body == body' && i == i' && j == j' && k == k'
  {
    var one, one' := body + [sep] + Decimal(i), body' + [sep] + Decimal(i');
    var two, two' := one + [sep] + Decimal(j), one' + [sep] + Decimal(j');
    SplitLast(two, Decimal(k), two', Decimal(k'), sep);
    SplitLast(one, Decimal(j), one', Decimal(j'), sep);
    SplitLast(body, Decimal(i), body', Decimal(i'), sep);
    DecimalInjective(i, i');
    DecimalInjective(j, j');
    DecimalInjective(k, k');
  }

  // ----- the index of a bucket -----

  /** The three features and their lengths, separated by semicolons. */
  function GlueKey(key: PolicyKey): string {
    WithLengths(key.client + ";" + key.user + ";" + key.privilege, ';',
                |key.client|, |key.user|, |key.privilege|)
  }

  /** Distinct keys have distinct indices, whatever characters their features hold. */
  lemma GlueKeyInjective(a: PolicyKey, b: PolicyKey)
    requires GlueKey(a) == GlueKey(b)
    ensures a == b
  {
    var s, t := a.client + ";" + a.user + ";" + a.privilege, b.client + ";" + b.user + ";" + b.privilege;
    WithLengthsInjective(s, t, ';', |a.client|, |a.user|, |a.privilege|, |b.client|, |b.user|, |b.privilege|);
    assert s[..|a.client|] == a.client && t[..|a.client|] == b.client;
    assert s[|a.client| + 1..][..|a.user|] == a.user && t[|a.client| + 1..][..|a.user|] == b.user;
    assert s[|a.client| + 1..][|a.user| + 1..] == a.privilege && t[|a.client| + 1..][|a.user| + 1..] == b.privilege;
  }

  /** The eight keys under which a policy for `key` can be stored. */
  function KeyVariants(key: PolicyKey): seq<PolicyKey> {
    var c, u, p, w := key.client, key.user, key.privilege, Wildcard;
    [PolicyKey(c, u, p), PolicyKey(w, u, p), PolicyKey(c, w, p), PolicyKey(c, u, w),
     PolicyKey(w, w, p), PolicyKey(w, u, w), PolicyKey(c, w, w), PolicyKey(w, w, w)]
  }

  /** The variants are exactly the rules that cover the key. */
  lemma VariantsAreTheCoveringKeys(rule: PolicyKey, key: PolicyKey)
    ensures rule in KeyVariants(key) <==> Covers(rule, key)
  {
    var v := KeyVariants(key);
    if Covers(rule, key) {
      assert rule == v[0] || rule == v[1] || rule == v[2] || rule == v[3] ||
             rule == v[4] || rule == v[5] || rule == v[6] || rule == v[7];
    }
  }

  // ----- the index of the decision cache -----

  /** The features without separators, followed by their lengths. */
  function CacheKey(key: PolicyKey): string {
    WithLengths(key.client + key.privilege + key.user, 1 as char,
                |key.client|, |key.privilege|, |key.user|)
  }

  lemma CacheKeyInjective(a: PolicyKey, b: PolicyKey)
    requires CacheKey(a) == CacheKey(b)
    ensures a == b
  {
    var s, t := a.client + a.privilege + a.user, b.client + b.privilege + b.user;
    WithLengthsInjective(s, t, 1 as char, |a.client|, |a.privilege|, |a.user|, |b.client|, |b.privilege|, |b.user|);
    assert s[..|a.client|] == a.client && t[..|a.client|] == b.client;
    assert s[|a.client|..][..|a.privilege|] == a.privilege && t[|a.client|..][..|a.privilege|] == b.privilege;
    assert s[|a.client|..][|a.privilege|..] == a.user && t[|a.client|..][|a.privilege|..] == b.user;
  }
}
