/**
  Resource domains: which controllers a domain receives, the text interface that enables them for
  children, and hierarchical memory charging with rollback.
 */
module ResDomain {
  import opened Machine
  import opened ResControl

  const NO_LIMIT: nat := ULONG_MAX

  /** Domains are numbered in order of creation; NO_PARENT marks a domain without one. */
  datatype Domain = Domain(parent: int, control: set<Controller>, mask: set<Controller>, has: set<Controller>,
      usage: nat, max: nat)

  const NO_PARENT: int := -1

  function Wrap(x: int): (r: nat)
    ensures r < U64
  {
    x % U64
  }

  // ---- The tree of domains ----

  /** A domain has the controllers of its mask, which its parent has too, and hands down at most those. */
  predicate DomainOk(ds: seq<Domain>, d: nat)
    requires d < |ds|
  {
    var e := ds[d];
    && NO_PARENT <= e.parent < d && e.has == e.mask && e.control <= e.mask && e.usage < U64
       && (Mem !in e.has ==> e.usage == 0)
    && (e.parent == NO_PARENT ==> d == 0 || e.mask == {})
    && (e.parent != NO_PARENT ==> e.mask <= ds[e.parent].mask)
  }

  /** Parents come before their children. */
  predicate Rooted(ds: seq<Domain>)
  {
    forall i :: 0 <= i < |ds| ==> NO_PARENT <= ds[i].parent < i
  }

  predicate TreeOk(ds: seq<Domain>)
  {
    |ds| > 0 && Rooted(ds) && forall d :: 0 <= d < |ds| ==> DomainOk(ds, d)
  }

  /** x is d or one of its ancestors. */
  predicate Ancestor(ds: seq<Domain>, x: int, d: int)
    requires Rooted(ds) && d < |ds|
    decreases if d < 0 then 0 else d + 1
  {
    0 <= d && (x == d || Ancestor(ds, x, ds[d].parent))
  }

  /** A domain's controllers are on every one of its ancestors. */
  lemma {:induction false} ControllersReachUp(ds: seq<Domain>, x: int, d: int, c: Controller)
    requires TreeOk(ds) && d < |ds| && Ancestor(ds, x, d) && c in ds[d].has
    ensures 0 <= x <= d && c in ds[x].has
    decreases if d < 0 then 0 else d + 1
  {
    assert DomainOk(ds, d);
    if x != d {
      assert DomainOk(ds, ds[d].parent);
      ControllersReachUp(ds, x, ds[d].parent, c);
    }
  }

  // ---- Charging ----

  /**
    The domains after bytes are added to the usage of d and of every ancestor; charging stops at a domain without a
    memory controller.
   */
  function Charged(ds: seq<Domain>, d: int, bytes: int): (r: seq<Domain>)
    requires Rooted(ds) && d < |ds|
    ensures |r| == |ds| && (forall i :: 0 <= i < |ds| ==> r[i] == ds[i].(usage := r[i].usage))
    decreases if d < 0 then 0 else d + 1
  {
    if d < 0 || Mem !in ds[d].has then ds
    else Charged(ds[d := ds[d].(usage := Wrap(ds[d].usage + bytes))], ds[d].parent, bytes)
  }

  /** No limit on the way up would be exceeded. */
  ghost predicate Fits(ds: seq<Domain>, d: int, bytes: nat)
    requires Rooted(ds) && d < |ds|
  {
    forall x :: Ancestor(ds, x, d) ==>
        0 <= x < |ds| && (ds[x].max == NO_LIMIT || Wrap(ds[x].usage + bytes) <= ds[x].max)
  }

  /** The usages after a charge, domain by domain. */
  lemma {:induction false} ChargedAt(ds: seq<Domain>, d: int, bytes: int, x: int)
    requires TreeOk(ds) && d < |ds| && 0 <= x < |ds| && (0 <= d ==> Mem in ds[d].has)
    ensures Charged(ds, d, bytes)[x].usage == if Ancestor(ds, x, d) then Wrap(ds[x].usage + bytes) else ds[x].usage
    decreases if d < 0 then 0 else d + 1
  {
    if d >= 0 {
      var ds' := ds[d := ds[d].(usage := Wrap(ds[d].usage + bytes))];
      StepSame(ds, d, bytes);
      assert DomainOk(ds, d) && (ds[d].parent >= 0 ==> DomainOk(ds, ds[d].parent));
      ChargedAt(ds', ds[d].parent, bytes, x);
      SameAncestors(ds, ds', x, ds[d].parent);
      if 0 <= ds[d].parent { AncestorBelow(ds, d, ds[d].parent); }
    }
  }

  lemma {:induction false} AncestorBelow(ds: seq<Domain>, x: int, d: int)
    requires Rooted(ds) && d < |ds| && d < x
    ensures !Ancestor(ds, x, d)
    decreases if d < 0 then 0 else d + 1
  {
    if d >= 0 { AncestorBelow(ds, x, ds[d].parent); }
  }

  /** Only usages differ. */
  predicate SameButUsage(ds: seq<Domain>, ds': seq<Domain>)
  {
    |ds'| == |ds| && forall i :: 0 <= i < |ds| ==>
      ds'[i] == ds[i].(usage := ds'[i].usage) && ds'[i].usage < U64
          && (Mem !in ds[i].has ==> ds'[i].usage == ds[i].usage)
  }

  lemma Usages(ds: seq<Domain>)
    requires TreeOk(ds)
    ensures forall i :: 0 <= i < |ds| ==> ds[i].usage < U64
  {
    forall i | 0 <= i < |ds| ensures ds[i].usage < U64 { assert DomainOk(ds, i); }
  }

  /** Changing one usage. */
  lemma StepSame(ds: seq<Domain>, d: nat, bytes: int)
    requires TreeOk(ds) && d < |ds|
    requires Mem in ds[d].has
    ensures var ds' := ds[d := ds[d].(usage := Wrap(ds[d].usage + bytes))]; SameButUsage(ds, ds') && TreeOk(ds')
  {
    Usages(ds);
    KeepsTree(ds, ds[d := ds[d].(usage := Wrap(ds[d].usage + bytes))]);
  }

  lemma KeepsTree(ds: seq<Domain>, ds': seq<Domain>)
    requires TreeOk(ds) && SameButUsage(ds, ds')
    ensures TreeOk(ds')
  {
    forall d | 0 <= d < |ds'| ensures DomainOk(ds', d) { assert DomainOk(ds, d); }
  }

  lemma {:induction false} SameAncestors(ds: seq<Domain>, ds': seq<Domain>, x: int, d: int)
    requires SameButUsage(ds, ds') && Rooted(ds) && d < |ds|
    ensures Rooted(ds') && (Ancestor(ds', x, d) <==> Ancestor(ds, x, d))
    decreases if d < 0 then 0 else d + 1
  {
    assert forall i :: 0 <= i < |ds'| ==> ds'[i].parent == ds[i].parent;
    if d >= 0 { SameAncestors(ds, ds', x, ds[d].parent); }
  }

  lemma {:induction false} ChargedUsage(ds: seq<Domain>, d: int, bytes: int)
    requires TreeOk(ds) && d < |ds|
    ensures SameButUsage(ds, Charged(ds, d, bytes))
    decreases if d < 0 then 0 else d + 1
  {
    Usages(ds);
    if d >= 0 && Mem in ds[d].has {
      var ds' := ds[d := ds[d].(usage := Wrap(ds[d].usage + bytes))];
      StepSame(ds, d, bytes);
      ChargedUsage(ds', ds[d].parent, bytes);
    }
  }

  /** Charging and then uncharging the same amount restores every usage. */
  lemma ChargeUncharge(ds: seq<Domain>, d: int, bytes: int)
    requires TreeOk(ds) && d < |ds|
    ensures Charged(Charged(ds, d, bytes), d, -bytes) == ds
  {
    var up := Charged(ds, d, bytes);
    ChargedUsage(ds, d, bytes);
    KeepsTree(ds, up);
    var down := Charged(up, d, -bytes);
    if 0 <= d && Mem in ds[d].has {
      forall x | 0 <= x < |ds| ensures down[x] == ds[x] { UsageBack(ds, d, bytes, x); }
    }
    assert down == ds;
  }

  lemma UsageBack(ds: seq<Domain>, d: nat, bytes: int, x: nat)
    requires TreeOk(ds) && d < |ds| && x < |ds| && Mem in ds[d].has && TreeOk(Charged(ds, d, bytes))
             && SameButUsage(ds, Charged(ds, d, bytes))
    ensures Charged(Charged(ds, d, bytes), d, -bytes)[x] == ds[x]
  {
    var up := Charged(ds, d, bytes);
    ChargedAt(ds, d, bytes, x);
    ChargedAt(up, d, -bytes, x);
    SameAncestors(ds, up, x, d);
    Usages(ds);
    hide Charged, Ancestor, TreeOk, Wrap;
    WrapBack(ds[x].usage, bytes);
  }

  lemma WrapBack(u: nat, bytes: int)
    requires u < U64
    ensures Wrap(Wrap(u + bytes) - bytes) == u
  {
  }

  // ---- Accounting ----

  /** The usage of the children of x among the first n domains. */
  function ChildSum(ds: seq<Domain>, x: int, n: nat): int
    requires n <= |ds|
  {
    if n == 0 then 0 else ChildSum(ds, x, n - 1) + (if ds[n - 1].parent == x then ds[n - 1].usage else 0)
  }

  /** Congruence modulo 2^64. */
  predicate Same64(a: int, b: int)
  {
    (a - b) % U64 == 0
  }

  /** The usage, plus delta if x is p, is what was charged here plus what the children use. */
  predicate Account(ds: seq<Domain>, own: seq<int>, x: nat, p: int, delta: int)
    requires x < |ds| == |own|
  {
    Mem in ds[x].has ==> Same64(ds[x].usage + (if x == p then delta else 0), own[x] + ChildSum(ds, x, |ds|))
  }

  /** Every domain's account is right, except that p still lacks delta. */
  predicate BalancedBut(ds: seq<Domain>, own: seq<int>, p: int, delta: int)
  {
    |own| == |ds| && forall x :: 0 <= x < |ds| ==> Account(ds, own, x, p, delta)
  }

  predicate Balanced(ds: seq<Domain>, own: seq<int>)
  {
    BalancedBut(ds, own, NO_PARENT, 0)
  }

  lemma {:induction false} ChildSumStep(ds: seq<Domain>, d: nat, u: nat, x: int, n: nat)
    requires n <= |ds| && d < |ds|
    ensures ChildSum(ds[d := ds[d].(usage := u)], x, n) == ChildSum(ds, x, n) + (if d < n
            && ds[d].parent == x then u - ds[d].usage else 0)
  {
    if n > 0 { ChildSumStep(ds, d, u, x, n - 1); }
  }

  lemma WrapSame(u: int, bytes: int)
    ensures Same64(Wrap(u + bytes), u + bytes)
  {
  }

  lemma SameAdd(a: int, b: int, c: int, d: int)
    requires Same64(a, b) && Same64(c, d)
    ensures Same64(a + c, b + d) && Same64(a - c, b - d)
  {
  }

  /** Adding to one usage moves the debt to the parent. */
  lemma AccountStep(ds: seq<Domain>, own: seq<int>, d: nat, bytes: int, x: nat)
    requires TreeOk(ds) && d < |ds| && Mem in ds[d].has && BalancedBut(ds, own, d, bytes) && x < |ds|
    ensures Account(ds[d := ds[d].(usage := Wrap(ds[d].usage + bytes))], own, x, ds[d].parent, bytes)
  {
    var u := Wrap(ds[d].usage + bytes);
    var ds' := ds[d := ds[d].(usage := u)];
    ChildSumStep(ds, d, u, x, |ds|);
    WrapSame(ds[d].usage, bytes);
    assert Account(ds, own, x, d, bytes);
    hide ChildSum, Wrap;
  }

  lemma {:induction false} ChargedBalances(ds: seq<Domain>, own: seq<int>, d: int, bytes: int)
    requires TreeOk(ds) && d < |ds| && (0 <= d ==> Mem in ds[d].has) && BalancedBut(ds, own, d, bytes)
    ensures Balanced(Charged(ds, d, bytes), own)
    decreases if d < 0 then 0 else d + 1
  {
    if d >= 0 {
      var ds' := ds[d := ds[d].(usage := Wrap(ds[d].usage + bytes))];
      StepSame(ds, d, bytes);
      assert DomainOk(ds, d) && (ds[d].parent >= 0 ==> DomainOk(ds, ds[d].parent));
      forall x | 0 <= x < |ds| ensures Account(ds', own, x, ds[d].parent, bytes) { AccountStep(ds, own, d, bytes, x); }
      hide Account;
      ChargedBalances(ds', own, ds[d].parent, bytes);
    } else {
      forall x | 0 <= x < |ds| ensures Account(ds, own, x, NO_PARENT, 0) { assert Account(ds, own, x, d, bytes); }
    }
  }

  /** A charge at d, booked there. */
  lemma ChargeBooked(ds: seq<Domain>, own: seq<int>, d: nat, bytes: int)
    requires TreeOk(ds) && d < |ds| && Mem in ds[d].has && Balanced(ds, own)
    ensures Balanced(Charged(ds, d, bytes), own[d := own[d] + bytes])
  {
    var own' := own[d := own[d] + bytes];
    forall x | 0 <= x < |ds| ensures Account(ds, own', x, d, bytes) {
      assert Account(ds, own, x, NO_PARENT, 0);
      hide ChildSum;
    }
    ChargedBalances(ds, own', d, bytes);
  }

  // ---- Conservation ----

  /** What was charged directly at the first n domains. */
  function OwnSum(ds: seq<Domain>, own: seq<int>, n: nat): int
    requires n <= |ds| == |own|
  {
    if n == 0 then 0 else OwnSum(ds, own, n - 1) + (if Mem in ds[n - 1].has then own[n - 1] else 0)
  }

  function UsedSum(ds: seq<Domain>, n: nat): int
    requires n <= |ds|
  {
    if n == 0 then 0 else UsedSum(ds, n - 1) + ds[n - 1].usage
  }

  /** What the first n domains pass on to their parents among the first m. */
  function PassedSum(ds: seq<Domain>, m: nat, n: nat): int
    requires m <= |ds| && n <= |ds|
  {
    if m == 0 then 0 else PassedSum(ds, m - 1, n) + (if Mem in ds[m - 1].has then ChildSum(ds, m - 1, n) else 0)
  }

  lemma {:induction false} PassedStep(ds: seq<Domain>, m: nat, n: nat)
    requires m <= |ds| && 0 < n <= |ds|
    ensures var p := ds[n - 1].parent;
            PassedSum(ds, m, n) == PassedSum(ds, m, n - 1) + (if 0 <= p < m
                && Mem in ds[p].has then ds[n - 1].usage else 0)
  {
    if m > 0 { PassedStep(ds, m - 1, n); }
  }

  lemma {:induction false} PassedNone(ds: seq<Domain>, m: nat)
    requires m <= |ds|
    ensures PassedSum(ds, m, 0) == 0
  {
    if m > 0 { PassedNone(ds, m - 1); }
  }

  /** Every usage but the root's is passed on. */
  lemma {:induction false} AllPassed(ds: seq<Domain>, n: nat)
    requires TreeOk(ds) && n <= |ds|
    ensures PassedSum(ds, |ds|, n) == UsedSum(ds, n) - (if n > 0 then ds[0].usage else 0)
  {
    if n == 0 {
      PassedNone(ds, |ds|);
    } else {
      AllPassed(ds, n - 1);
      PassedStep(ds, |ds|, n);
      assert DomainOk(ds, n - 1);
      var p := ds[n - 1].parent;
      if p >= 0 { assert DomainOk(ds, p); }
    }
  }

  lemma {:induction false} UsedIsBooked(ds: seq<Domain>, own: seq<int>, n: nat)
    requires TreeOk(ds) && Balanced(ds, own) && n <= |ds|
    ensures Same64(UsedSum(ds, n), OwnSum(ds, own, n) + PassedSum(ds, n, |ds|))
  {
    if n > 0 {
      UsedIsBooked(ds, own, n - 1);
      assert Account(ds, own, n - 1, NO_PARENT, 0) && DomainOk(ds, n - 1);
      var x := n - 1;
      if Mem in ds[x].has {
        SameAdd(UsedSum(ds, x), OwnSum(ds, own, x) + PassedSum(ds, x, |ds|), ds[x].usage,
            own[x] + ChildSum(ds, x, |ds|));
      }
    }
  }

  /** The root's usage is the sum of everything charged and not given back anywhere, modulo 2^64. */
  lemma RootHoldsAll(ds: seq<Domain>, own: seq<int>)
    requires TreeOk(ds) && Balanced(ds, own)
    ensures Same64(ds[0].usage, OwnSum(ds, own, |ds|))
  {
    UsedIsBooked(ds, own, |ds|);
    AllPassed(ds, |ds|);
  }

  // ---- Creation ----

  function NewDomain(ds: seq<Domain>, parent: int): Domain
    requires parent < |ds|
  {
    var mask := if parent < 0 then {} else ds[parent].control;
    Domain(if parent < 0 then NO_PARENT else parent, {}, mask, mask, 0, NO_LIMIT)
  }

  lemma {:induction false} ChildSumAppend(ds: seq<Domain>, e: Domain, x: int, n: nat)
    requires n <= |ds|
    ensures ChildSum(ds + [e], x, n) == ChildSum(ds, x, n)
  {
    if n > 0 { ChildSumAppend(ds, e, x, n - 1); }
  }

  lemma {:induction false} NoChildren(ds: seq<Domain>, x: int, n: nat)
    requires n <= |ds| && forall i :: 0 <= i < n ==> ds[i].parent != x
    ensures ChildSum(ds, x, n) == 0
  {
    if n > 0 { NoChildren(ds, x, n - 1); }
  }

  /** A new domain keeps the controllers closed upwards and every account right. */
  lemma CreateOk(ds: seq<Domain>, own: seq<int>, parent: int)
    requires TreeOk(ds) && Balanced(ds, own) && parent < |ds|
    ensures TreeOk(ds + [NewDomain(ds, parent)]) && Balanced(ds + [NewDomain(ds, parent)], own + [0])
  {
    var e := NewDomain(ds, parent);
    var ds' := ds + [e];
    if parent >= 0 { assert DomainOk(ds, parent); }
    forall d | 0 <= d < |ds'| ensures DomainOk(ds', d) { if d < |ds| { assert DomainOk(ds, d); } }
    forall x | 0 <= x < |ds'| ensures Account(ds', own + [0], x, NO_PARENT, 0) {
      if x < |ds| {
        assert Account(ds, own, x, NO_PARENT, 0);
        ChildSumAppend(ds, e, x, |ds|);
      } else {
        NoChildren(ds', x, |ds'|);
      }
    }
  }

  lemma {:induction false} ChildSumKept(ds: seq<Domain>, ds': seq<Domain>, x: int, n: nat)
    requires n <= |ds| == |ds'| && forall i :: 0 <= i < |ds| ==>
             ds'[i].parent == ds[i].parent && ds'[i].usage == ds[i].usage
    ensures ChildSum(ds', x, n) == ChildSum(ds, x, n)
  {
    if n > 0 { ChildSumKept(ds, ds', x, n - 1); }
  }

  /** Changing a limit or what a domain hands down touches no account. */
  lemma SettingOk(ds: seq<Domain>, own: seq<int>, d: nat, control: set<Controller>, max: nat)
    requires TreeOk(ds) && Balanced(ds, own) && d < |ds| && control <= ds[d].mask
    ensures var ds' := ds[d := ds[d].(control := control, max := max)]; TreeOk(ds') && Balanced(ds', own)
  {
    var ds' := ds[d := ds[d].(control := control, max := max)];
    forall i | 0 <= i < |ds'| ensures DomainOk(ds', i) { assert DomainOk(ds, i); }
    forall x | 0 <= x < |ds'| ensures Account(ds', own, x, NO_PARENT, 0) {
      assert Account(ds, own, x, NO_PARENT, 0);
      ChildSumKept(ds, ds', x, |ds|);
    }
  }

  /** Whether the charge fits at the parent does not depend on the usage of the child. */
  lemma FitsSplit(ds: seq<Domain>, d: nat, bytes: nat, u: nat)
    requires Rooted(ds) && d < |ds|
    ensures Rooted(ds[d := ds[d].(usage := u)])
    ensures Fits(ds, d, bytes) <==>
              (ds[d].max == NO_LIMIT || Wrap(ds[d].usage + bytes) <= ds[d].max)
              && Fits(ds[d := ds[d].(usage := u)], ds[d].parent, bytes)
  {
    var ds', p := ds[d := ds[d].(usage := u)], ds[d].parent;
    forall x ensures Ancestor(ds', x, p) <==> Ancestor(ds, x, p) { PathKept(ds, ds', x, p); }
    forall x ensures Ancestor(ds, x, p) ==> 0 <= x <= p { AncestorRange(ds, x, p); }
    assert Ancestor(ds, d, d);
    assert forall x :: Ancestor(ds, x, d) <==> x == d || Ancestor(ds, x, p);
  }

  lemma {:induction false} PathKept(ds: seq<Domain>, ds': seq<Domain>, x: int, d: int)
    requires Rooted(ds) && Rooted(ds') && |ds'| == |ds| && (forall i :: 0 <= i < |ds| ==> ds'[i].parent == ds[i].parent)
             && d < |ds|
    ensures Ancestor(ds', x, d) <==> Ancestor(ds, x, d)
    decreases if d < 0 then 0 else d + 1
  {
    if d >= 0 { PathKept(ds, ds', x, ds[d].parent); }
  }

  lemma {:induction false} AncestorRange(ds: seq<Domain>, x: int, d: int)
    requires Rooted(ds) && d < |ds|
    ensures Ancestor(ds, x, d) ==> 0 <= x <= d
    decreases if d < 0 then 0 else d + 1
  {
    if d >= 0 { AncestorRange(ds, x, ds[d].parent); }
  }

  class Domains {
    var ds: seq<Domain>
    ghost var own: seq<int>

    ghost predicate Valid()
      reads this
    {
      TreeOk(ds) && Balanced(ds, own)
    }

    /** The root domain, with every controller: resdomain_init. */
    constructor ()
      ensures Valid() && ds == [Domain(NO_PARENT, ALL, ALL, ALL, 0, NO_LIMIT)] && own == [0]
    {
      ds := [Domain(NO_PARENT, ALL, ALL, ALL, 0, NO_LIMIT)];
      own := [0];
      new;
      NoChildren(ds, 0, 1);
    }

    /** A new domain: resdomain_create. */
    method Create(parent: int) returns (d: nat)
      requires Valid() && parent < |ds|
      modifies this
      ensures Valid() && d == |old(ds)| && ds == old(ds) + [NewDomain(old(ds), parent)] && own == old(own) + [0]
    {
      CreateOk(ds, own, parent);
      d := |ds|;
      ds := ds + [NewDomain(ds, parent)];
      own := own + [0];
    }

    /** A new limit, written to memory.max. */
    method SetMax(d: nat, max: nat)
      requires Valid() && d < |ds| && Mem in ds[d].has
      modifies this
      ensures Valid() && ds == old(ds)[d := old(ds)[d].(max := max)] && own == old(own)
    {
      assert DomainOk(ds, d);
      SettingOk(ds, own, d, ds[d].control, max);
      ds := ds[d := ds[d].(max := max)];
    }

    /** Charge one domain and its ancestors, undoing it where an ancestor refuses: resdomain_charge_mem. */
    method ChargeUp(d: nat, bytes: nat, force: bool) returns (ok: bool)
      requires TreeOk(ds) && d < |ds|
      modifies this`ds
      ensures ok == (Mem !in old(ds)[d].has || force || Fits(old(ds), d, bytes))
      ensures ds == if ok then Charged(old(ds), d, bytes) else old(ds)
      decreases d
    {
      var e := ds[d];
      if Mem !in e.has { return true; }
      FitsSplit(ds, d, bytes, Wrap(e.usage + bytes));
      if !force && e.max != NO_LIMIT && Wrap(e.usage + bytes) > e.max { return false; }
      StepSame(ds, d, bytes);
      assert DomainOk(ds, d);
      ds := ds[d := e.(usage := Wrap(e.usage + bytes))];
      if e.parent != NO_PARENT {
        assert DomainOk(old(ds), e.parent);
        ok := ChargeUp(e.parent, bytes, force);
        if !ok {
          WrapBack(e.usage, bytes);
          ds := ds[d := ds[d].(usage := Wrap(ds[d].usage - bytes))];
          assert ds == old(ds);
          return false;
        }
      }
      return true;
    }

    /** Charge a domain, the root if none is given. */
    method Charge(rd: int, bytes: nat, force: bool) returns (ok: bool)
      requires Valid() && rd < |ds|
      modifies this
      ensures Valid()
      ensures var d := if rd < 0 then 0 else rd;
              && ok == (Mem !in old(ds)[d].has || force || Fits(old(ds), d, bytes))
              && ds == (if ok then Charged(old(ds), d, bytes) else old(ds))
              && own == (if ok && Mem in old(ds)[d].has then old(own)[d := old(own)[d] + bytes] else old(own))
      ensures var d := if rd < 0 then 0 else rd;
              ok && !force && Mem in ds[d].has ==> forall x :: Ancestor(ds, x, d) ==>
                  0 <= x < |ds| && (ds[x].max == NO_LIMIT || ds[x].usage <= ds[x].max)
    {
      var d := if rd < 0 then 0 else rd;
      ghost var before := ds;
      ok := ChargeUp(d, bytes, force);
      if ok && Mem in before[d].has {
        ChargeBooked(before, own, d, bytes);
        own := own[d := own[d] + bytes];
        ChargedUsage(before, d, bytes);
        KeepsTree(before, ds);
        if !force { LimitsRespected(before, d, bytes); }
      }
    }

    /** Give bytes back on the whole path: resdomain_uncharge_mem. */
    method UnchargeUp(d: nat, bytes: nat)
      requires TreeOk(ds) && d < |ds|
      modifies this`ds
      ensures ds == Charged(old(ds), d, 0 - bytes)
      decreases d
    {
      var e := ds[d];
      if Mem !in e.has { return; }
      StepSame(ds, d, 0 - bytes);
      assert DomainOk(ds, d);
      ds := ds[d := e.(usage := Wrap(e.usage - bytes))];
      if e.parent != NO_PARENT { UnchargeUp(e.parent, bytes); }
    }

    method Uncharge(rd: int, bytes: nat)
      requires Valid() && rd < |ds|
      modifies this
      ensures Valid()
      ensures var d := if rd < 0 then 0 else rd;
              && ds == Charged(old(ds), d, 0 - bytes)
              && own == (if Mem in old(ds)[d].has then old(own)[d := old(own)[d] - bytes] else old(own))
    {
      var d := if rd < 0 then 0 else rd;
      ghost var before := ds;
      UnchargeUp(d, bytes);
      if Mem in before[d].has {
        ChargeBooked(before, own, d, 0 - bytes);
        own := own[d := own[d] - bytes];
        ChargedUsage(before, d, 0 - bytes);
        KeepsTree(before, ds);
      }
    }

    /** Enable and disable controllers for the children of a domain: resfs_subtree_control_write. */
    method SubtreeControlWrite(d: nat, buf: string) returns (r: int)
      requires Valid() && d < |ds|
      modifies this
      ensures Valid() && own == old(own)
      ensures r == if |buf| >= 128 then -22 else |buf|
      ensures ds == if |buf| >= 128 then old(ds)
                    else old(ds)[d := old(ds)[d].(control :=
                        ActAll(old(ds)[d].control, old(ds)[d].mask, Words(CString(buf))))]
    {
      if |buf| >= 128 { return -22; }
      assert DomainOk(ds, d);
      var kbuf := buf + ['\0'];
      ghost var mask, text := ds[d].mask, CString(kbuf);
      CStringEnd(buf);
      hide Words, Balanced, TreeOk, CString;
      var p: nat := 0;
      while kbuf[p] != '\0'
        invariant p <= |text| && own == old(own) && Valid()
        invariant |ds| == |old(ds)| && ds == old(ds)[d := old(ds)[d].(control := ds[d].control)]
        invariant ActAll(ds[d].control, mask, Words(text[p..])) == ActAll(old(ds)[d].control, mask, Words(text))
        decreases |text| - p
      {
        var more, enable, name, q, w := ScanWord(kbuf, p);
        if !more { p := q; break; }
        ApplyWord(d, kbuf[name..q], enable, w);
        p := q;
      }
      NoWords(text[p..]);
      r := |buf|;
    }

    /** The effect of one word on what the domain hands down. */
    method ApplyWord(d: nat, name: string, enable: bool, ghost w: string)
      requires Valid() && d < |ds| && name == Bare(w) && enable == !Disables(w)
      modifies this`ds
      ensures Valid() && ds == old(ds)[d := old(ds)[d].(control := Act(old(ds)[d].control, old(ds)[d].mask, w))]
    {
      var e, id := ds[d], Named(name);
      assert DomainOk(ds, d);
      var control := e.control;
      if id.Some? {
        if enable {
          if id.value in e.mask { control := control + {id.value}; }
        } else {
          control := control - {id.value};
        }
      }
      SettingOk(ds, own, d, control, e.max);
      ds := ds[d := e.(control := control)];
    }
  }

  /** The next word from position start: its sign, where its name begins, and where it ends. */
  method ScanWord(kbuf: string, start: nat) returns (more: bool, enable: bool, name: nat, p: nat, ghost w: string)
    requires start <= |CString(kbuf)| < |kbuf|
    ensures var text := CString(kbuf);
            && start <= p <= |text|
            && if !more then p == |text| && Words(text[start..]) == []
               else && start < p && name <= p && Words(text[start..]) == [w] + Words(text[p..])
                    && kbuf[name..p] == Bare(w) && enable == !Disables(w)
  {
    hide Words, CString, Bare, Disables;
    ghost var text := CString(kbuf);
    p, enable, w := start, true, [];
    while kbuf[p] == ' ' || kbuf[p] == '\n'
      invariant start <= p <= |text| && Words(text[p..]) == Words(text[start..])
      decreases |text| - p
    {
      SkipSeparator(text, p);
      p := p + 1;
    }
    name := p;
    if kbuf[p] == '\0' {
      NoWords(text[p..]);
      return false, enable, name, p, w;
    }
    ghost var word := p;
    if kbuf[p] == '+' { p := p + 1; } else if kbuf[p] == '-' { enable := false; p := p + 1; }
    name := p;
    while kbuf[p] != '\0' && kbuf[p] != ' ' && kbuf[p] != '\n'
      invariant name <= p <= |text| && word <= name && (forall i :: word <= i < p ==> !Separator(text[i]))
      invariant p == word ==> !Separator(kbuf[p]) && kbuf[p] != '\0'
      decreases |text| - p
    {
      p := p + 1;
    }
    w := text[word..p];
    WordAt(text, word, p);
    more := true;
    SamePart(kbuf, text, name, p);
    SignOf(text, word, name, p);
  }

  lemma SamePart(kbuf: string, text: string, from: nat, to: nat)
    requires from <= to <= |text| <= |kbuf| && text == kbuf[..|text|]
    ensures kbuf[from..to] == text[from..to]
  {
  }

  lemma SkipSeparator(text: string, p: nat)
    requires p < |text| && Separator(text[p])
    ensures Words(text[p + 1..]) == Words(text[p..])
  {
    assert text[p..][1..] == text[p + 1..];
  }

  /** The name of the word from `from` to `to`, which begins after the sign if there is one. */
  lemma SignOf(text: string, from: nat, name: nat, to: nat)
    requires from < to <= |text| && name == (if text[from] == '+' || text[from] == '-' then from + 1 else from)
    ensures Bare(text[from..to]) == text[name..to] && (Disables(text[from..to]) <==> text[from] == '-')
  {
  }

  lemma NoWords(s: string)
    ensures s == [] ==> Words(s) == []
  {
  }

  lemma CStringEnd(buf: string)
    ensures CString(buf + ['\0']) == CString(buf)
  {
    if buf != [] && buf[0] != '\0' {
      assert (buf + ['\0'])[1..] == buf[1..] + ['\0'];
      CStringEnd(buf[1..]);
    }
  }

  /** The word that begins at `from` and ends at `to`. */
  lemma WordAt(text: string, from: nat, to: nat)
    requires from < to <= |text| && (forall i :: from <= i < to ==> !Separator(text[i]))
             && (to < |text| ==> Separator(text[to]))
    ensures Words(text[from..]) == [text[from..to]] + Words(text[to..])
  {
    var s := text[from..];
    assert forall i :: 0 <= i < to - from ==> s[i] == text[from + i];
    assert to < |text| ==> s[to - from] == text[to];
    assert WordLength(s) == to - from;
    assert s[..to - from] == text[from..to] && s[to - from..] == text[to..];
  }

  lemma LimitsRespected(ds: seq<Domain>, d: nat, bytes: nat)
    requires TreeOk(ds) && d < |ds| && Mem in ds[d].has && Fits(ds, d, bytes) && Rooted(Charged(ds, d, bytes))
    ensures var r := Charged(ds, d, bytes); forall x :: Ancestor(r, x, d) ==>
            0 <= x < |r| && (r[x].max == NO_LIMIT || r[x].usage <= r[x].max)
  {
    var r := Charged(ds, d, bytes);
    forall x | Ancestor(r, x, d) ensures 0 <= x < |r| && (r[x].max == NO_LIMIT || r[x].usage <= r[x].max) {
      PathKept(ds, r, x, d);
      ChargedAt(ds, d, bytes, x);
    }
  }
}
