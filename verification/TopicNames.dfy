/** The names the broker and recorder modules give to topics and for_each entries, and when they collide. */
module TopicNames {
  /** An event type in a region. */
  datatype Pair = Pair(region: string, kind: string)

  /** How the modules name things: the for_each key and the dedicated topic of a pair, and the shared
      topic of a region. */
  datatype Naming = Naming(key: Pair -> string, dedicated: Pair -> string, shared: string -> string)

  /** replace(type, ".", "-"). */
  function Dashed(kind: string): string {
    if kind == "" then "" else [if kind[0] == '.' then '-' else kind[0]] + Dashed(kind[1..])
  }

  function KeyOf(p: Pair): string {
    p.region + "-" + p.kind
  }

  function DedicatedTopic(name: string, p: Pair): string {
    name + "-" + Dashed(p.kind) + "-" + p.region
  }

  function SharedTopic(name: string, region: string): string {
    name + "-" + region
  }

  /** The names the modules use, for a broker called `name`. */
  function TerraformNames(name: string): Naming {
    Naming(KeyOf, (p: Pair) => DedicatedTopic(name, p), (region: string) => SharedTopic(name, region))
  }

  predicate In(p: Pair, regions: set<string>, kinds: set<string>) {
    p.region in regions && p.kind in kinds
  }

  /** Distinct pairs have distinct keys and dedicated topics, and no topic is anyone else's. */
  ghost predicate CollisionFree(n: Naming, regions: set<string>, kinds: set<string>) {
    && (forall p, q :: In(p, regions, kinds) && In(q, regions, kinds) && n.key(p) == n.key(q) ==> p == q)
    && (forall p, q :: In(p, regions, kinds) && In(q, regions, kinds) && n.dedicated(p) == n.dedicated(q) ==> p == q)
    && (forall r, r' :: r in regions && r' in regions && n.shared(r) == n.shared(r') ==> r == r')
    && (forall p, r :: In(p, regions, kinds) && r in regions ==> n.dedicated(p) != n.shared(r))
  }

  /** The types stay apart once their dots are dashes. */
  ghost predicate DashedApart(kinds: set<string>) {
    forall t, u :: t in kinds && u in kinds && Dashed(t) == Dashed(u) ==> t == u
  }

  /** `q` is `r`, a dash, and more. */
  predicate ExtendsRight(r: string, q: string) {
    r + "-" <= q
  }

  /** `q` is a text without dots, a dash, and `r`. */
  predicate ExtendsLeft(r: string, q: string) {
    |q| > |r| && q[|q| - |r| - 1..] == "-" + r && '.' !in q[..|q| - |r| - 1]
  }

  /** No region's name continues another's across a dash, at either end. */
  predicate SafeRegions(regions: set<string>) {
    forall r, q :: r in regions && q in regions ==> !ExtendsRight(r, q) && !ExtendsLeft(r, q)
  }

  lemma {:induction false} DashedShape(kind: string)
    ensures |Dashed(kind)| == |kind| && '.' !in Dashed(kind)
    ensures '.' !in kind ==> Dashed(kind) == kind
  {
    if kind == "" {
    } else {
      DashedShape(kind[1..]);
      if '.' !in kind {
        assert kind[0] in kind && kind == [kind[0]] + kind[1..];
      }
    }
  }

  lemma LongerFront(r: string, t: string, q: string, u: string)
    requires r + "-" + t == q + "-" + u && |r| < |q|
    ensures ExtendsRight(r, q)
  {
    var k := r + "-" + t;
    assert k[..|r| + 1] == r + "-" && k[..|q|] == q;
    assert q[..|r| + 1] == k[..|r| + 1];
  }

  lemma KeysApart(p: Pair, q: Pair)
    requires KeyOf(p) == KeyOf(q)
    requires !ExtendsRight(p.region, q.region) && !ExtendsRight(q.region, p.region)
    ensures p == q
  {
    if |p.region| < |q.region| {
      LongerFront(p.region, p.kind, q.region, q.kind);
    } else if |q.region| < |p.region| {
      LongerFront(q.region, q.kind, p.region, p.kind);
    } else {
      var k, m := KeyOf(p), |p.region|;
      assert k[..m] == p.region && k[m + 1..] == p.kind;
      assert KeyOf(q)[..m] == q.region && KeyOf(q)[m + 1..] == q.kind;
    }
  }

  /** What stands before the longer of two endings of one text is made of the text before the shorter. */
  lemma SameEnding(a: string, r: string, b: string, q: string)
    requires a + "-" + r == b + "-" + q && '.' !in a && '.' !in b
    requires !ExtendsLeft(r, q) && !ExtendsLeft(q, r)
    ensures a == b && r == q
  {
    if |r| < |q| {
      LongerEnding(a, r, b, q);
    } else if |q| < |r| {
      LongerEnding(b, q, a, r);
    } else {
      var k := a + "-" + r;
      assert k[..|a|] == a && k[..|b|] == b;
      assert k[|a| + 1..] == r && k[|b| + 1..] == q;
    }
  }

  lemma LongerEnding(a: string, r: string, b: string, q: string)
    requires a + "-" + r == b + "-" + q && '.' !in a && |r| < |q|
    ensures ExtendsLeft(r, q)
  {
    var k, d := a + "-" + r, |q| - |r| - 1;
    assert k[|b| + 1..] == q;
    assert q[d..] == k[|a|..] == "-" + r;
    forall i | 0 <= i < d
      ensures q[i] != '.'
    {
      assert q[i] == k[|b| + 1 + i] == a[|b| + 1 + i];
    }
  }

  lemma DedicatedApart(name: string, p: Pair, q: Pair)
    requires DedicatedTopic(name, p) == DedicatedTopic(name, q)
    requires !ExtendsLeft(p.region, q.region) && !ExtendsLeft(q.region, p.region)
    ensures p.region == q.region && Dashed(p.kind) == Dashed(q.kind)
  {
    var a, b := Dashed(p.kind) + "-" + p.region, Dashed(q.kind) + "-" + q.region;
    assert DedicatedTopic(name, p) == name + "-" + a && DedicatedTopic(name, q) == name + "-" + b;
    assert a == (name + "-" + a)[|name| + 1..] == (name + "-" + b)[|name| + 1..] == b;
    DashedShape(p.kind);
    DashedShape(q.kind);
    SameEnding(Dashed(p.kind), p.region, Dashed(q.kind), q.region);
  }

  lemma DedicatedIsNotShared(name: string, p: Pair, r: string)
    requires DedicatedTopic(name, p) == SharedTopic(name, r)
    ensures ExtendsLeft(p.region, r)
  {
    var d := Dashed(p.kind);
    var a := d + "-" + p.region;
    assert DedicatedTopic(name, p) == name + "-" + a;
    assert a == (name + "-" + a)[|name| + 1..] == (name + "-" + r)[|name| + 1..] == r;
    DashedShape(p.kind);
    assert |r| - |p.region| - 1 == |d| && a[|d|..] == "-" + p.region && a[..|d|] == d;
  }

  /** Safe regions never collide, whatever the types, as long as the types differ by more than dots. */
  lemma SafeNames(name: string, regions: set<string>, kinds: set<string>)
    requires SafeRegions(regions) && DashedApart(kinds)
    ensures CollisionFree(TerraformNames(name), regions, kinds)
  {
    var n := TerraformNames(name);
    forall p, q | In(p, regions, kinds) && In(q, regions, kinds) && n.key(p) == n.key(q)
      ensures p == q
    {
      KeysApart(p, q);
    }
    forall p, q | In(p, regions, kinds) && In(q, regions, kinds) && n.dedicated(p) == n.dedicated(q)
      ensures p == q
    {
      DedicatedApart(name, p, q);
    }
    forall r, r' | r in regions && r' in regions && n.shared(r) == n.shared(r')
      ensures r == r'
    {
      assert r == (name + "-" + r)[|name| + 1..] == (name + "-" + r')[|name| + 1..] == r';
    }
    forall p, r | In(p, regions, kinds) && r in regions
      ensures n.dedicated(p) != n.shared(r)
    {
      if n.dedicated(p) == n.shared(r) {
        DedicatedIsNotShared(name, p, r);
      }
    }
  }

  /** Two regions one of which continues the other make two types share a for_each key. */
  lemma RightExtensionCollides(name: string, regions: set<string>, r: string, q: string) returns (kinds: set<string>)
    requires r in regions && q in regions && ExtendsRight(r, q)
    ensures DashedApart(kinds) && !CollisionFree(TerraformNames(name), regions, kinds)
  {
    var x := q[|r| + 1..];
    var t, u := x + "-a", "a";
    kinds := {t, u};
    DashedShape(t);
    DashedShape(u);
    assert q == r + "-" + x;
    var p, p' := Pair(r, t), Pair(q, u);
    assert KeyOf(p) == KeyOf(p') && In(p, regions, kinds) && In(p', regions, kinds) && |t| != |u|;
  }

  /** Or make a dedicated topic the shared topic of another region. */
  lemma LeftExtensionCollides(name: string, regions: set<string>, r: string, q: string) returns (kinds: set<string>)
    requires r in regions && q in regions && ExtendsLeft(r, q)
    ensures DashedApart(kinds) && !CollisionFree(TerraformNames(name), regions, kinds)
  {
    var x := q[..|q| - |r| - 1];
    kinds := {x};
    DashedShape(x);
    assert q == x + "-" + r;
    var p := Pair(r, x);
    assert DedicatedTopic(name, p) == name + "-" + (x + "-" + r) == SharedTopic(name, q);
    assert In(p, regions, kinds);
  }

  /** The regions are safe exactly when no choice of types, apart but for dots, can make names collide. */
  lemma NamesNeverCollideIff(name: string, regions: set<string>)
    ensures SafeRegions(regions) <==>
            forall kinds :: DashedApart(kinds) ==> CollisionFree(TerraformNames(name), regions, kinds)
  {
    if SafeRegions(regions) {
      forall kinds | DashedApart(kinds)
        ensures CollisionFree(TerraformNames(name), regions, kinds)
      {
        SafeNames(name, regions, kinds);
      }
    } else {
      var r, q :| r in regions && q in regions && (ExtendsRight(r, q) || ExtendsLeft(r, q));
      var kinds;
      if ExtendsRight(r, q) {
        kinds := RightExtensionCollides(name, regions, r, q);
      } else {
        kinds := LeftExtensionCollides(name, regions, r, q);
      }
    }
  }

  /** The character counts as a dash in a topic name. */
  predicate IsDash(c: char) {
    c == '.' || c == '-'
  }

  /** Types with the same dashed text are those that differ only in dots and dashes. */
  lemma {:induction false} DashedAlike(t: string, u: string)
    ensures Dashed(t) == Dashed(u) <==>
            |t| == |u| && forall i :: 0 <= i < |t| ==> t[i] == u[i] || (IsDash(t[i]) && IsDash(u[i]))
  {
    DashedShape(t);
    DashedShape(u);
    if t != "" && u != "" {
      DashedAlike(t[1..], u[1..]);
      assert Dashed(t)[1..] == Dashed(t[1..]) && Dashed(u)[1..] == Dashed(u[1..]);
      assert Dashed(t) == [Dashed(t)[0]] + Dashed(t[1..]) && Dashed(u) == [Dashed(u)[0]] + Dashed(u[1..]);
      assert forall i :: 0 < i < |t| ==> t[i] == t[1..][i - 1];
      assert forall i :: 0 < i < |u| ==> u[i] == u[1..][i - 1];
      if |t| == |u| && forall i :: 0 <= i < |t| ==> t[i] == u[i] || (IsDash(t[i]) && IsDash(u[i])) {
        assert forall i :: 0 <= i < |t[1..]| ==> t[1..][i] == t[i + 1] && u[1..][i] == u[i + 1];
      }
    }
  }

  /** And types that differ only in dots and dashes share a dedicated topic in every region. */
  lemma DotsAndDashesCollide(name: string, regions: set<string>, kinds: set<string>)
    requires regions != {} && !DashedApart(kinds)
    ensures !CollisionFree(TerraformNames(name), regions, kinds)
  {
    var t, u :| t in kinds && u in kinds && Dashed(t) == Dashed(u) && t != u;
    var r :| r in regions;
    var n, p, q := TerraformNames(name), Pair(r, t), Pair(r, u);
    assert n.dedicated(p) == n.dedicated(q) && In(p, regions, kinds) && In(q, regions, kinds);
  }
}
