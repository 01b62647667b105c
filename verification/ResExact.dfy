/**
  Accounts without wrap-around: as long as what was charged and not given back adds up to less than 2^64,
  usages are exact sums and not only congruent to them.
 */
module ResExact {
  import opened Machine
  import opened ResControl
  import opened ResDomain

  /** The usages, among the first n domains, of those numbered k or more whose parent is numbered lower. */
  function Frontier(ds: seq<Domain>, k: nat, n: nat): int
    requires n <= |ds|
  {
    if n == 0 then 0
    else Frontier(ds, k, n - 1) + (if k <= n - 1 && ds[n - 1].parent < k then ds[n - 1].usage else 0)
  }

  /** Lowering the bound by one exchanges the children of a domain for the domain. */
  lemma {:induction false} FrontierStep(ds: seq<Domain>, k: nat, n: nat)
    requires Rooted(ds) && 0 < k <= |ds| && n <= |ds|
    ensures Frontier(ds, k - 1, n) == Frontier(ds, k, n) - ChildSum(ds, k - 1, n) + (if k <= n then ds[k - 1].usage
            else 0)
    ensures 0 <= ChildSum(ds, k - 1, n) <= Frontier(ds, k, n)
  {
    if n > 0 { FrontierStep(ds, k, n - 1); }
  }

  lemma {:induction false} FrontierEmpty(ds: seq<Domain>, k: nat, n: nat)
    requires n <= |ds| && n <= k
    ensures Frontier(ds, k, n) == 0
  {
    if n > 0 { FrontierEmpty(ds, k, n - 1); }
  }

  /** Nothing is outstanding that was not charged, and all of it fits 64 bits. */
  predicate Bounded(ds: seq<Domain>, own: seq<int>)
    requires |own| == |ds|
  {
    (forall x :: 0 <= x < |own| ==> own[x] >= 0) && OwnSum(ds, own, |ds|) < U64
  }

  lemma {:induction false} OwnSumGrows(ds: seq<Domain>, own: seq<int>, k: nat, n: nat)
    requires |own| == |ds| && k <= n <= |ds| && (forall x :: 0 <= x < |own| ==> own[x] >= 0)
    ensures 0 <= OwnSum(ds, own, k) <= OwnSum(ds, own, n)
    decreases n
  {
    if k < n { OwnSumGrows(ds, own, k, n - 1); } else if k > 0 { OwnSumGrows(ds, own, k - 1, k - 1); }
  }

  /** A domain without a memory controller has no children with usage. */
  lemma {:induction false} NoUsageBelow(ds: seq<Domain>, x: nat, n: nat)
    requires TreeOk(ds) && x < |ds| && n <= |ds| && Mem !in ds[x].has
    ensures ChildSum(ds, x, n) == 0
  {
    if n > 0 {
      NoUsageBelow(ds, x, n - 1);
      assert DomainOk(ds, n - 1) && DomainOk(ds, x);
    }
  }

  /** The account of domain x as an equation between integers. */
  predicate ExactAt(ds: seq<Domain>, own: seq<int>, x: nat)
    requires x < |ds| == |own|
  {
    Mem in ds[x].has ==> ds[x].usage == own[x] + ChildSum(ds, x, |ds|)
  }

  lemma SmallSame(a: int, b: int)
    requires Same64(a, b) && 0 <= a < U64 && 0 <= b < U64
    ensures a == b
  {
  }

  lemma {:induction false} ExactFrom(ds: seq<Domain>, own: seq<int>, k: nat)
    requires TreeOk(ds) && Balanced(ds, own) && Bounded(ds, own) && k <= |ds|
    ensures forall x :: k <= x < |ds| ==> ExactAt(ds, own, x)
    ensures Frontier(ds, k, |ds|) == OwnSum(ds, own, |ds|) - OwnSum(ds, own, k)
    decreases |ds| - k
  {
    if k == |ds| {
      FrontierEmpty(ds, k, k);
    } else {
      ExactFrom(ds, own, k + 1);
      FrontierStep(ds, k + 1, |ds|);
      assert DomainOk(ds, k) && Account(ds, own, k, NO_PARENT, 0);
      OwnSumGrows(ds, own, k, |ds|);
      if Mem in ds[k].has {
        SmallSame(ds[k].usage, own[k] + ChildSum(ds, k, |ds|));
      } else {
        NoUsageBelow(ds, k, |ds|);
      }
    }
  }

  lemma {:induction false} FrontierZero(ds: seq<Domain>, n: nat)
    requires TreeOk(ds) && 0 < n <= |ds|
    ensures Frontier(ds, 0, n) == ds[0].usage
  {
    assert DomainOk(ds, n - 1);
    if n > 1 { FrontierZero(ds, n - 1); } else { assert Frontier(ds, 0, 0) == 0; }
  }

  /**
    Every usage is exactly what was charged there plus the children's usages, and the root's is all that was charged.
   */
  lemma ExactAccounts(ds: seq<Domain>, own: seq<int>)
    requires TreeOk(ds) && Balanced(ds, own) && Bounded(ds, own)
    ensures forall x :: 0 <= x < |ds| ==> ExactAt(ds, own, x)
    ensures ds[0].usage == OwnSum(ds, own, |ds|)
  {
    ExactFrom(ds, own, 0);
    FrontierZero(ds, |ds|);
  }

  // ---- Limits ----

  /** No limit on the way up would be exceeded, in integers. */
  ghost predicate FitsExactly(ds: seq<Domain>, d: int, bytes: nat)
    requires Rooted(ds) && d < |ds|
  {
    forall x :: Ancestor(ds, x, d) ==> 0 <= x < |ds| && (ds[x].max == NO_LIMIT || ds[x].usage + bytes <= ds[x].max)
  }

  /** No sum that is compared with a limit wraps. */
  ghost predicate NoneWraps(ds: seq<Domain>, d: int, bytes: nat)
    requires Rooted(ds) && d < |ds|
  {
    forall x :: Ancestor(ds, x, d) ==> 0 <= x < |ds| && (ds[x].max == NO_LIMIT || ds[x].usage + bytes < U64)
  }

  /**
    The code's test admits what the integer test admits, and besides only charges for which some sum on the path wraps.
   */
  lemma FitsIff(ds: seq<Domain>, d: nat, bytes: nat)
    requires TreeOk(ds) && d < |ds| && forall x :: 0 <= x < |ds| ==> ds[x].max <= NO_LIMIT
    ensures FitsExactly(ds, d, bytes) <==> Fits(ds, d, bytes) && NoneWraps(ds, d, bytes)
  {
    forall x | Ancestor(ds, x, d)
      ensures 0 <= x < |ds|
      ensures ds[x].usage + bytes < U64 ==> Wrap(ds[x].usage + bytes) == ds[x].usage + bytes
    {
      AncestorRange(ds, x, d);
    }
  }

  /**
    After an admitted charge that leaves all outstanding charges below 2^64, every limit on the path bounds what is
    charged below it.
   */
  lemma ChargeWithinLimits(ds: seq<Domain>, own: seq<int>, d: nat, bytes: nat)
    requires TreeOk(ds) && Balanced(ds, own) && d < |ds| && Mem in ds[d].has && Fits(ds, d, bytes)
    requires Bounded(Charged(ds, d, bytes), own[d := own[d] + bytes])
    ensures var r, own' := Charged(ds, d, bytes), own[d := own[d] + bytes];
            && TreeOk(r) && Balanced(r, own')
            && forall x :: Ancestor(r, x, d) ==>
                 0 <= x < |r| && (Mem in r[x].has && r[x].max != NO_LIMIT ==> own'[x] + ChildSum(r, x, |r|) <= r[x].max)
  {
    var r, own' := Charged(ds, d, bytes), own[d := own[d] + bytes];
    ChargeBooked(ds, own, d, bytes);
    ChargedUsage(ds, d, bytes);
    KeepsTree(ds, r);
    LimitsRespected(ds, d, bytes);
    ExactAccounts(r, own');
    hide Charged, Ancestor, ChildSum, Balanced, TreeOk;
    forall x | Ancestor(r, x, d)
      ensures 0 <= x < |r| && (Mem in r[x].has && r[x].max != NO_LIMIT ==> own'[x] + ChildSum(r, x, |r|) <= r[x].max)
    {
      assert ExactAt(r, own', x);
    }
  }

  /** With 50 of 100 bytes in use, a charge of 2^64 - 10 is admitted, and 40 are in use afterwards. */
  method WrapAdmitted() returns (t: Domains, ok: bool)
    ensures fresh(t) && t.Valid() && ok && t.ds[0].max == 100 && t.ds[0].usage == 40 && t.own[0] == U64 + 40
  {
    t := new Domains();
    t.SetMax(0, 100);
    assert forall x :: Ancestor(t.ds, x, 0) <==> x == 0;
    ok := t.Charge(0, 50, false);
    assert t.ds[0].usage == 50;
    assert forall x :: Ancestor(t.ds, x, 0) <==> x == 0;
    ok := t.Charge(0, U64 - 10, false);
  }
}
