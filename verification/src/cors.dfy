/** The assistant server's CORS origins: the two local front-ends and the configured
    origin, without repeats. */
module Cors {
  import opened Seqs

  const MainFrontend := "http://localhost:3000"
  const ProfessorFrontend := "http://localhost:3003"

  /** `allowedOrigins` in `createCorsMiddleware` */
  function AllowedOrigins(corsOrigin: string): (r: seq<string>)
    ensures Distinct(r) && |r| <= 3
    ensures forall o :: o in r <==> o == MainFrontend || o == ProfessorFrontend || o == corsOrigin
    ensures corsOrigin == MainFrontend || corsOrigin == ProfessorFrontend ==> r == [MainFrontend, ProfessorFrontend]
    ensures corsOrigin != MainFrontend && corsOrigin != ProfessorFrontend ==> r == [MainFrontend, ProfessorFrontend, corsOrigin]
  {
    var r := KeepFirst([MainFrontend, ProfessorFrontend, corsOrigin]);
    FirstOccurrenceOrder(r, corsOrigin);
    r
  }

  /** A duplicate-free list of the three origins in order of first occurrence is the two
      front-ends followed by the configured origin when that is new. */
  lemma FirstOccurrenceOrder(r: seq<string>, c: string)
    requires forall x :: x in r <==> x in [MainFrontend, ProfessorFrontend, c]
    requires forall a, b :: 0 <= a < b < |r| ==> r[a] != r[b]
    requires forall a, b :: 0 <= a < b < |r| ==> IndexOf([MainFrontend, ProfessorFrontend, c], r[a]) < IndexOf([MainFrontend, ProfessorFrontend, c], r[b])
    ensures |r| <= 3
    ensures c == MainFrontend || c == ProfessorFrontend ==> r == [MainFrontend, ProfessorFrontend]
    ensures c != MainFrontend && c != ProfessorFrontend ==> r == [MainFrontend, ProfessorFrontend, c]
  {
    assert MainFrontend != ProfessorFrontend by {
      assert MainFrontend[20] != ProfessorFrontend[20];
    }
    ThreeOrigins(r, MainFrontend, ProfessorFrontend, c);
  }

  /** The same for any two distinct fixed origins `m` and `p`. */
  lemma ThreeOrigins(r: seq<string>, m: string, p: string, c: string)
    requires m != p
    requires forall x :: x in r <==> x in [m, p, c]
    requires forall a, b :: 0 <= a < b < |r| ==> r[a] != r[b]
    requires forall a, b :: 0 <= a < b < |r| ==> IndexOf([m, p, c], r[a]) < IndexOf([m, p, c], r[b])
    ensures |r| <= 3
    ensures c == m || c == p ==> r == [m, p]
    ensures c != m && c != p ==> r == [m, p, c]
  {
    DistinctBound(r, [m, p, c]);
    FrontTwoFirst(r, m, p, c);
    if c != m && c != p {
      NewOriginThird(r, m, p, c);
    } else {
      DistinctBound(r, [m, p]);
    }
  }

  /** The two fixed origins `m` and `p` come first, in that order. */
  lemma FrontTwoFirst(r: seq<string>, m: string, p: string, c: string)
    requires m != p
    requires forall x :: x in r <==> x in [m, p, c]
    requires forall a, b :: 0 <= a < b < |r| ==> IndexOf([m, p, c], r[a]) < IndexOf([m, p, c], r[b])
    ensures |r| >= 2 && r[0] == m && r[1] == p
  {
    var origins := [m, p, c];
    assert IndexOf(origins, m) == 0 && IndexOf(origins, p) == 1;
    assert m in r && p in r;
    var i := IndexOf(r, m);
    var j := IndexOf(r, p);
    OrderBound(r, origins, i);
    OrderBound(r, origins, j);
    assert r[i] == m && r[j] == p;
    assert i == 0;
    assert j == 1;
  }

  /** A configured origin other than `m` and `p` comes third. */
  lemma NewOriginThird(r: seq<string>, m: string, p: string, c: string)
    requires c != m && c != p
    requires forall x :: x in r <==> x in [m, p, c]
    requires forall a, b :: 0 <= a < b < |r| ==> IndexOf([m, p, c], r[a]) < IndexOf([m, p, c], r[b])
    requires 2 <= |r| <= 3 && r[0] == m && r[1] == p
    ensures |r| == 3 && r[2] == c
  {
    var origins := [m, p, c];
    assert IndexOf(origins, c) == 2;
    assert c in r;
    var k := IndexOf(r, c);
    OrderBound(r, origins, k);
    assert r[k] == c && k != 0 && k != 1;
  }

  /** Positions increase strictly along `r`, so the `a`-th element sits at `a` or later. */
  lemma {:induction false} OrderBound(r: seq<string>, origins: seq<string>, a: nat)
    requires a < |r|
    requires forall x | x in r :: x in origins
    requires forall a, b :: 0 <= a < b < |r| ==> IndexOf(origins, r[a]) < IndexOf(origins, r[b])
    ensures IndexOf(origins, r[a]) >= a
  {
    assert r[a] in r;
    if a > 0 {
      OrderBound(r, origins, a - 1);
    }
  }
}
