/** Balancer names derived from service UIDs (loadbalancer.go, GetLoadBalancerName). */
module Names {
  const MAX_NAME := 32

  function RemoveDashes(s: string): string {
    if s == [] then [] else (if s[0] == '-' then [] else [s[0]]) + RemoveDashes(s[1..])
  }

  function Take(s: string, n: nat): string {
    if |s| > n then s[..n] else s
  }

  function LoadBalancerName(uid: string): string {
    Take(RemoveDashes("a" + uid), MAX_NAME)
  }

  lemma {:induction false} NoDashes(s: string)
    ensures '-' !in RemoveDashes(s)
    ensures '-' !in s ==> RemoveDashes(s) == s
  {
    if s != [] {
      NoDashes(s[1..]);
    }
  }

  /** Dashes go, every other character stays, in order. */
  lemma {:induction false} DashesRemoved(s: string, t: string, c: char)
    ensures RemoveDashes([]) == [] && RemoveDashes([c]) == if c == '-' then [] else [c]
    ensures RemoveDashes(s + t) == RemoveDashes(s) + RemoveDashes(t)
  {
    assert [c][1..] == [];
    if s == [] {
      assert s + t == t;
    } else {
      DashesRemoved(s[1..], t, c);
      assert (s + t)[1..] == s[1..] + t;
    }
  }

  /** The name is "a" and the first 31 characters of the UID without its dashes. */
  lemma NameOf(uid: string)
    ensures var rest := RemoveDashes(uid); LoadBalancerName(uid) == "a" + if |rest| > 31 then rest[..31] else rest
  {
    var rest := RemoveDashes(uid);
    DashesRemoved("a", uid, 'a');
    assert RemoveDashes("a" + uid) == "a" + rest;
    if |rest| > 31 {
      assert ("a" + rest)[..32] == "a" + rest[..31];
    }
  }

  /** Whatever the UID, the name is a non-empty, dash-free string of at most 32 characters. */
  lemma NameIsLegal(uid: string)
    ensures 0 < |LoadBalancerName(uid)| <= 32 && '-' !in LoadBalancerName(uid)
  {
    NameOf(uid);
    NoDashes(uid);
  }

  /** The canonical text form of section 3 of RFC 4122, in lower case. */
  predicate Canonical(uid: string) {
    |uid| == 36 && forall i :: 0 <= i < 36 ==>
      if i in {8, 13, 18, 23} then uid[i] == '-' else IsHex(uid[i])
  }

  predicate IsHex(c: char) {
    '0' <= c <= '9' || 'a' <= c <= 'f'
  }

  /** Where the i-th hex digit stands in a canonical UID. */
  function DigitAt(i: nat): (p: nat)
    requires i < 32
    ensures p < 36
  {
    if i < 8 then i else if i < 12 then i + 1 else if i < 16 then i + 2 else if i < 20 then i + 3 else i + 4
  }

  function HexDigits(uid: string): string
    requires |uid| == 36
  {
    seq(32, i requires 0 <= i < 32 => uid[DigitAt(i)])
  }

  lemma {:induction false} SkipRun(s: string, n: nat)
    requires n < |s| && s[n] == '-' && forall i :: 0 <= i < n ==> s[i] != '-'
    ensures RemoveDashes(s) == s[..n] + RemoveDashes(s[n + 1..])
  {
    if n > 0 {
      SkipRun(s[1..], n - 1);
      assert s[1..][n..] == s[n + 1..];
      assert [s[0]] + s[1..][..n - 1] == s[..n];
    }
  }

  lemma CanonicalDigits(uid: string)
    requires Canonical(uid)
    ensures RemoveDashes(uid) == HexDigits(uid)
  {
    var s9, s14, s19, s24 := uid[9..], uid[14..], uid[19..], uid[24..];
    NoDashes(s24);
    assert RemoveDashes(s19) == s19[..4] + s24 by {
      SkipRun(s19, 4);
      assert s19[5..] == s24;
    }
    assert RemoveDashes(s14) == s14[..4] + RemoveDashes(s19) by {
      SkipRun(s14, 4);
      assert s14[5..] == s19;
    }
    assert RemoveDashes(s9) == s9[..4] + RemoveDashes(s14) by {
      SkipRun(s9, 4);
      assert s9[5..] == s14;
    }
    SkipRun(uid, 8);
  }

  /** The name keeps 31 of the 32 hex digits, so two services share a balancer name exactly when
      their UIDs agree in all but the last character. */
  lemma NamesCollide(u: string, v: string)
    requires Canonical(u) && Canonical(v)
    ensures LoadBalancerName(u) == LoadBalancerName(v) <==> HexDigits(u)[..31] == HexDigits(v)[..31]
    ensures LoadBalancerName(u) == LoadBalancerName(v) <==> u[..35] == v[..35]
  {
    NameOf(u);
    NameOf(v);
    CanonicalDigits(u);
    CanonicalDigits(v);
    var x, y := HexDigits(u)[..31], HexDigits(v)[..31];
    assert ("a" + x)[1..] == x && ("a" + y)[1..] == y;
    DigitsDetermineUid(u, v);
  }

  lemma DigitsDetermineUid(u: string, v: string)
    requires Canonical(u) && Canonical(v)
    ensures HexDigits(u)[..31] == HexDigits(v)[..31] <==> u[..35] == v[..35]
  {
    var x, y := HexDigits(u)[..31], HexDigits(v)[..31];
    if x == y {
      forall j: nat | j < 35
        ensures u[j] == v[j]
      {
        if j !in {8, 13, 18, 23} {
          var i :=
            if j < 8 then j else if j < 13 then j - 1 else if j < 18 then j - 2 else if j < 23 then j - 3 else j - 4;
          assert u[j] == x[i] && v[j] == y[i];
        }
      }
    }
    if u[..35] == v[..35] {
      forall i: nat | i < 31
        ensures x[i] == y[i]
      {
        assert u[..35][DigitAt(i)] == v[..35][DigitAt(i)];
      }
    }
  }
}
