/**
 Nitro's certificate chain: a leaf and a bundle of certificates, accepted in either order of the bundle if
 each is signed by the next and the last holds the pinned root's key. Signatures are an uninterpreted relation.
 */
module CertChain {
  import opened Common

  type Der = string
  type Key = string

  /** A parsed certificate: its public key, and all else that is signed. */
  datatype Cert = Cert(key: Key, signed: string, signature: string)

  /** The parts of X.509 and P-384 that the chain walk calls on. */
  datatype Crypto = Crypto(parse: Der -> Option<Cert>, onCurve: Key -> bool, signs: (Key, Cert) -> bool)

  datatype ChainError = RootParse | RootKey | LeafParse | BundleParse | ParentKey | BadSignature | WrongRoot

  // ---------------------------------------------------------------- the walk

  /** The first thing wrong on the way up from `current`, if anything. */
  function Walk(current: Cert, order: seq<Cert>, crypto: Crypto): (e: Option<ChainError>)
    ensures e.Some? ==> e.value == ParentKey || e.value == BadSignature
    decreases |order|
  {
    if order == [] then None
    else if !crypto.onCurve(order[0].key) then Some(ParentKey)
    else if !crypto.signs(order[0].key, current) then Some(BadSignature)
    else Walk(order[0], order[1..], crypto)
  }

  function OrderError(leaf: Cert, order: seq<Cert>, rootKey: Key, crypto: Crypto): Option<ChainError> {
    if Walk(leaf, order, crypto).Some? then Walk(leaf, order, crypto)
    else if order == [] then (if crypto.signs(rootKey, leaf) then None else Some(BadSignature))
    else if order[|order| - 1].key != rootKey then Some(WrongRoot)
    else None
  }

  /** A certificate of the order, or the leaf before it. */
  ghost function Child(leaf: Cert, order: seq<Cert>, i: nat): Cert
    requires i <= |order|
  {
    if i == 0 then leaf else order[i - 1]
  }

  /** The order is at fault at `i` for this reason: a key off the curve, or a signature by it that does not verify. */
  ghost predicate FaultAt(leaf: Cert, order: seq<Cert>, i: nat, e: ChainError, crypto: Crypto) {
    && i < |order|
    && (e == ParentKey || e == BadSignature)
    && (e == ParentKey <==> !crypto.onCurve(order[i].key))
    && (e == BadSignature ==> !crypto.signs(order[i].key, Child(leaf, order, i)))
    && forall j :: 0 <= j < i ==> crypto.onCurve(order[j].key) && crypto.signs(order[j].key, Child(leaf, order, j))
  }

  lemma {:induction false} WalkStops(leaf: Cert, order: seq<Cert>, crypto: Crypto) returns (i: nat)
    requires Walk(leaf, order, crypto).Some?
    ensures FaultAt(leaf, order, i, Walk(leaf, order, crypto).value, crypto)
    decreases |order|
  {
    i := 0;
    if crypto.onCurve(order[0].key) && crypto.signs(order[0].key, leaf) {
      var k := WalkStops(order[0], order[1..], crypto);
      i := k + 1;
      assert forall j :: 0 <= j <= k ==> Child(order[0], order[1..], j) == Child(leaf, order, j + 1);
      forall j | 0 <= j < i ensures crypto.onCurve(order[j].key) && crypto.signs(order[j].key, Child(leaf, order, j)) {
        if j > 0 {
          assert crypto.onCurve(order[1..][j - 1].key);
        }
      }
    }
  }

  /** Every refusal of an order has its reason: the first fault on the way up, or what stands at the end of it. */
  lemma OrderErrorExplained(leaf: Cert, order: seq<Cert>, rootKey: Key, crypto: Crypto)
    requires OrderError(leaf, order, rootKey, crypto).Some?
    ensures
      var e := OrderError(leaf, order, rootKey, crypto).value;
      || (exists i :: FaultAt(leaf, order, i, e, crypto))
      || (order == [] && e == BadSignature && !crypto.signs(rootKey, leaf))
      || (order != [] && e == WrongRoot && order[|order| - 1].key != rootKey)
  {
    if Walk(leaf, order, crypto).Some? {
      var i := WalkStops(leaf, order, crypto);
    }
  }

  method TryOrder(leaf: Cert, order: seq<Cert>, rootKey: Key, crypto: Crypto) returns (r: Result<(), ChainError>)
    ensures r.Failure? ==> r.error in {ParentKey, BadSignature, WrongRoot}
    ensures r == match OrderError(leaf, order, rootKey, crypto) case None => Success(()) case Some(e) => Failure(e)
  {
    var current := leaf;
    var i := 0;
    while i < |order|
      invariant 0 <= i <= |order| && Walk(leaf, order, crypto) == Walk(current, order[i..], crypto)
      invariant i == 0 ==> current == leaf
    {
      assert order[i..][1..] == order[i + 1..] && order[i..][0] == order[i];
      var next := order[i];
      if !crypto.onCurve(next.key) {
        return Failure(ParentKey);
      }
      if !crypto.signs(next.key, current) {
        return Failure(BadSignature);
      }
      current := next;
      i := i + 1;
    }
    if order == [] {
      if !crypto.signs(rootKey, current) {
        return Failure(BadSignature);
      }
      return Success(());
    }
    if order[|order| - 1].key != rootKey {
      return Failure(WrongRoot);
    }
    r := Success(());
  }

  // ---------------------------------------------------------------- the verifier

  function Reverse<T>(xs: seq<T>): (r: seq<T>)
    ensures |r| == |xs| && forall i :: 0 <= i < |xs| ==> r[i] == xs[|xs| - 1 - i]
  {
    if xs == [] then [] else Reverse(xs[1..]) + [xs[0]]
  }

  function ParseAll(ders: seq<Der>, crypto: Crypto): Option<seq<Cert>> {
    if ders == [] then Some([])
    else
      var cert, rest := crypto.parse(ders[0]), ParseAll(ders[1..], crypto);
      if cert.Some? && rest.Some? then Some([cert.value] + rest.value) else None
  }

  method VerifyCertChain(leafDer: Der, bundle: seq<Der>, rootDer: Der, crypto: Crypto)
    returns (r: Result<(), ChainError>)
    ensures r.Success? <==> Accepted(leafDer, bundle, rootDer, crypto)
    ensures r.Failure? && ParseAll(bundle, crypto).Some? && crypto.parse(leafDer).Some? && crypto.parse(rootDer).Some?
            && crypto.onCurve(crypto.parse(rootDer).value.key) ==>
              Some(r.error) == OrderError(crypto.parse(leafDer).value, ParseAll(bundle, crypto).value,
                                          crypto.parse(rootDer).value.key, crypto)
    ensures r == Failure(RootParse) <==> crypto.parse(rootDer).None?
    ensures r == Failure(RootKey) <==>
            crypto.parse(rootDer).Some? && !crypto.onCurve(crypto.parse(rootDer).value.key)
    ensures crypto.parse(rootDer).Some? && crypto.onCurve(crypto.parse(rootDer).value.key) ==>
              && (r == Failure(LeafParse) <==> crypto.parse(leafDer).None?)
              && (r == Failure(BundleParse) <==> crypto.parse(leafDer).Some? && ParseAll(bundle, crypto).None?)
  {
    var root := crypto.parse(rootDer);
    if root.None? {
      return Failure(RootParse);
    }
    if !crypto.onCurve(root.value.key) {
      return Failure(RootKey);
    }
    var leaf := crypto.parse(leafDer);
    if leaf.None? {
      return Failure(LeafParse);
    }
    var certs := ParseAll(bundle, crypto);
    if certs.None? {
      return Failure(BundleParse);
    }
    r := TryOrder(leaf.value, Reverse(certs.value), root.value.key, crypto);
    if r.Failure? {
      r := TryOrder(leaf.value, certs.value, root.value.key, crypto);
    }
  }

  ghost predicate Accepted(leafDer: Der, bundle: seq<Der>, rootDer: Der, crypto: Crypto) {
    var root, leaf, certs := crypto.parse(rootDer), crypto.parse(leafDer), ParseAll(bundle, crypto);
    && root.Some? && crypto.onCurve(root.value.key) && leaf.Some? && certs.Some?
    && (OrderError(leaf.value, certs.value, root.value.key, crypto) == None
        || OrderError(leaf.value, Reverse(certs.value), root.value.key, crypto) == None)
  }

  // ---------------------------------------------------------------- what acceptance means

  ghost predicate SignedBy(child: Cert, parent: Cert, crypto: Crypto) {
    crypto.onCurve(parent.key) && crypto.signs(parent.key, child)
  }

  /** Each certificate of the path is signed with the key of the next. */
  ghost predicate Path(path: seq<Cert>, crypto: Crypto) {
    forall i :: 0 < i < |path| ==> SignedBy(path[i - 1], path[i], crypto)
  }

  /** The path ends at the root's key: that key is its last certificate's own, or signed a leaf that stands alone. */
  ghost predicate Anchored(path: seq<Cert>, rootKey: Key, crypto: Crypto) {
    path != [] && if |path| == 1 then crypto.signs(rootKey, path[0]) else path[|path| - 1].key == rootKey
  }

  lemma {:induction false} WalkIsPath(leaf: Cert, order: seq<Cert>, crypto: Crypto)
    ensures Walk(leaf, order, crypto) == None <==> Path([leaf] + order, crypto)
    decreases |order|
  {
    if order != [] {
      WalkIsPath(order[0], order[1..], crypto);
      assert [order[0]] + order[1..] == order;
      PathFirst([leaf] + order, crypto);
      assert ([leaf] + order)[1..] == order;
    }
  }

  lemma PathFirst(path: seq<Cert>, crypto: Crypto)
    requires |path| > 1
    ensures Path(path, crypto) <==> SignedBy(path[0], path[1], crypto) && Path(path[1..], crypto)
  {
    var rest := path[1..];
    assert forall i :: 0 <= i < |rest| ==> rest[i] == path[i + 1];
    if Path(path, crypto) {
      assert SignedBy(path[1 - 1], path[1], crypto);
      forall i | 0 < i < |rest| ensures SignedBy(rest[i - 1], rest[i], crypto) {
        assert SignedBy(path[i + 1 - 1], path[i + 1], crypto);
      }
    }
    if SignedBy(path[0], path[1], crypto) && Path(rest, crypto) {
      forall i | 0 < i < |path| ensures SignedBy(path[i - 1], path[i], crypto) {
        if i > 1 {
          assert SignedBy(rest[i - 1 - 1], rest[i - 1], crypto);
        }
      }
    }
  }

  lemma OrderExactly(leaf: Cert, order: seq<Cert>, rootKey: Key, crypto: Crypto)
    ensures OrderError(leaf, order, rootKey, crypto) == None <==>
            Path([leaf] + order, crypto) && Anchored([leaf] + order, rootKey, crypto)
  {
    WalkIsPath(leaf, order, crypto);
  }

  lemma {:induction false} ReverseMembers<T>(xs: seq<T>)
    ensures multiset(Reverse(xs)) == multiset(xs)
  {
    if xs != [] {
      ReverseMembers(xs[1..]);
      assert xs == [xs[0]] + xs[1..];
    }
  }

  /** The path takes in every certificate of the bundle, in one direction or the other. */
  ghost predicate WholePath(path: seq<Cert>, leaf: Cert, certs: seq<Cert>) {
    path == [leaf] + certs || path == [leaf] + Reverse(certs)
  }

  /**
   A chain is accepted exactly when everything parses, the root's key is on the curve, and the bundle read one
   way or the other makes a path of signatures from the leaf to the root's key.
   */
  lemma AcceptedExactly(leafDer: Der, bundle: seq<Der>, rootDer: Der, crypto: Crypto)
    ensures Accepted(leafDer, bundle, rootDer, crypto) <==>
            && crypto.parse(rootDer).Some? && crypto.parse(leafDer).Some? && ParseAll(bundle, crypto).Some?
            && crypto.onCurve(crypto.parse(rootDer).value.key)
            && exists path ::
                 GoodPath(path, crypto.parse(leafDer).value, ParseAll(bundle, crypto).value,
                          crypto.parse(rootDer).value.key, crypto)
  {
    if crypto.parse(rootDer).Some? && crypto.parse(leafDer).Some? && ParseAll(bundle, crypto).Some? {
      SomeOrder(crypto.parse(leafDer).value, ParseAll(bundle, crypto).value, crypto.parse(rootDer).value.key, crypto);
    }
  }

  ghost predicate GoodPath(path: seq<Cert>, leaf: Cert, certs: seq<Cert>, rootKey: Key, crypto: Crypto) {
    WholePath(path, leaf, certs) && Path(path, crypto) && Anchored(path, rootKey, crypto)
  }

  lemma SomeOrder(leaf: Cert, certs: seq<Cert>, rootKey: Key, crypto: Crypto)
    ensures OrderError(leaf, certs, rootKey, crypto) == None || OrderError(leaf, Reverse(certs), rootKey, crypto) == None
       <==> exists path :: GoodPath(path, leaf, certs, rootKey, crypto)
  {
    OrderExactly(leaf, certs, rootKey, crypto);
    OrderExactly(leaf, Reverse(certs), rootKey, crypto);
    if OrderError(leaf, certs, rootKey, crypto) == None {
      assert GoodPath([leaf] + certs, leaf, certs, rootKey, crypto);
    }
    if OrderError(leaf, Reverse(certs), rootKey, crypto) == None {
      assert GoodPath([leaf] + Reverse(certs), leaf, certs, rootKey, crypto);
    }
  }

  /** Such a path starts at the leaf and passes every certificate of the bundle, each as often as it is there. */
  lemma PathTakesAll(path: seq<Cert>, leaf: Cert, certs: seq<Cert>)
    requires WholePath(path, leaf, certs)
    ensures path[0] == leaf && multiset(path[1..]) == multiset(certs)
  {
    ReverseMembers(certs);
    assert path[1..] == certs || path[1..] == Reverse(certs);
  }

  // ---------------------------------------------------------------- symmetry

  lemma ReverseTwice<T>(xs: seq<T>)
    ensures Reverse(Reverse(xs)) == xs
  {
    assert forall i :: 0 <= i < |xs| ==> Reverse(Reverse(xs))[i] == Reverse(xs)[|xs| - 1 - i] == xs[i];
  }

  lemma {:induction false} ParseAllAppend(a: seq<Der>, b: seq<Der>, crypto: Crypto)
    ensures ParseAll(a + b, crypto) ==
            if ParseAll(a, crypto).Some? && ParseAll(b, crypto).Some?
            then Some(ParseAll(a, crypto).value + ParseAll(b, crypto).value) else None
  {
    if a == [] {
      assert a + b == b;
      if ParseAll(b, crypto).Some? {
        assert [] + ParseAll(b, crypto).value == ParseAll(b, crypto).value;
      }
    } else {
      assert (a + b)[0] == a[0] && (a + b)[1..] == a[1..] + b;
      ParseAllAppend(a[1..], b, crypto);
      if crypto.parse(a[0]).Some? && ParseAll(a[1..], crypto).Some? && ParseAll(b, crypto).Some? {
        Regroup([crypto.parse(a[0]).value], ParseAll(a[1..], crypto).value, ParseAll(b, crypto).value);
      }
    }
  }

  lemma {:induction false} ParseAllReversed(ders: seq<Der>, crypto: Crypto)
    ensures ParseAll(Reverse(ders), crypto) ==
            match ParseAll(ders, crypto) case None => None case Some(certs) => Some(Reverse(certs))
  {
    if ders != [] {
      ParseAllReversed(ders[1..], crypto);
      ParseAllAppend(Reverse(ders[1..]), [ders[0]], crypto);
      ParseOne(ders[0], crypto);
      if ParseAll(ders, crypto).Some? {
        assert ParseAll(ders, crypto).value[1..] == ParseAll(ders[1..], crypto).value;
      }
    }
  }

  lemma ParseOne(der: Der, crypto: Crypto)
    ensures ParseAll([der], crypto) == if crypto.parse(der).Some? then Some([crypto.parse(der).value]) else None
  {
    var none: seq<Der> := [];
    assert [der][1..] == none && ParseAll(none, crypto) == Some([]);
    if crypto.parse(der).Some? {
      assert [crypto.parse(der).value] + [] == [crypto.parse(der).value];
    }
  }

  /** Reversing the bundle never changes the verdict. */
  lemma OrientationDoesNotMatter(leafDer: Der, bundle: seq<Der>, rootDer: Der, crypto: Crypto)
    ensures Accepted(leafDer, Reverse(bundle), rootDer, crypto) <==> Accepted(leafDer, bundle, rootDer, crypto)
  {
    ParseAllReversed(bundle, crypto);
    if ParseAll(bundle, crypto).Some? {
      ReverseTwice(ParseAll(bundle, crypto).value);
    }
  }

  // ---------------------------------------------------------------- the last certificate's own signature

  /** The bundle is accepted by way of this path. */
  ghost predicate AcceptedBy(path: seq<Cert>, leafDer: Der, bundle: seq<Der>, rootDer: Der, crypto: Crypto) {
    var root, leaf, certs := crypto.parse(rootDer), crypto.parse(leafDer), ParseAll(bundle, crypto);
    && root.Some? && crypto.onCurve(root.value.key) && leaf.Some? && certs.Some?
    && GoodPath(path, leaf.value, certs.value, root.value.key, crypto)
  }

  /** Whatever is accepted with a bundle ends in a certificate that the root's key signed. */
  ghost predicate LastIsSigned(rootDer: Der, crypto: Crypto) {
    forall path, leafDer, bundle :: bundle != [] && AcceptedBy(path, leafDer, bundle, rootDer, crypto) ==>
      crypto.signs(crypto.parse(rootDer).value.key, path[|path| - 1])
  }

  ghost predicate Holds(der: Der, key: Key, crypto: Crypto) {
    crypto.parse(der).Some? && crypto.parse(der).value.key == key
  }

  ghost predicate Signed(der: Der, key: Key, crypto: Crypto) {
    crypto.parse(der).Some? && crypto.signs(key, crypto.parse(der).value)
  }

  /** Every certificate that holds the key is signed with it. */
  ghost predicate HoldersAreSigned(key: Key, crypto: Crypto) {
    forall der :: Holds(der, key, crypto) ==> Signed(der, key, crypto)
  }

  /**
   The last certificate of every accepted bundle is signed by the root exactly when all certificates that hold
   the root's key are, or the root signed none at all.
   */
  lemma LastIsSignedExactly(rootDer: Der, crypto: Crypto)
    requires crypto.parse(rootDer).Some? && crypto.onCurve(crypto.parse(rootDer).value.key)
    ensures
      var key := crypto.parse(rootDer).value.key;
      LastIsSigned(rootDer, crypto) <==> HoldersAreSigned(key, crypto) || forall der :: !Signed(der, key, crypto)
  {
    var key := crypto.parse(rootDer).value.key;
    forall path, leafDer, bundle | bundle != [] && AcceptedBy(path, leafDer, bundle, rootDer, crypto)
      ensures HoldersAreSigned(key, crypto) || (forall der :: !Signed(der, key, crypto)) ==>
                crypto.signs(key, path[|path| - 1])
    {
      EndOfPath(path, leafDer, bundle, rootDer, crypto);
    }
    if der, child :| Holds(der, key, crypto) && !Signed(der, key, crypto) && Signed(child, key, crypto) {
      UnsignedHolderAccepted(child, der, rootDer, crypto);
    }
  }

  /** For a root that signed itself, as a root certificate does, only the first can be. */
  lemma SelfSignedExactly(rootDer: Der, crypto: Crypto)
    requires crypto.parse(rootDer).Some? && crypto.onCurve(crypto.parse(rootDer).value.key)
    requires Signed(rootDer, crypto.parse(rootDer).value.key, crypto)
    ensures LastIsSigned(rootDer, crypto) <==> HoldersAreSigned(crypto.parse(rootDer).value.key, crypto)
  {
    LastIsSignedExactly(rootDer, crypto);
  }

  lemma {:induction false} ParsedFrom(ders: seq<Der>, crypto: Crypto, cert: Cert) returns (der: Der)
    requires ParseAll(ders, crypto).Some? && cert in ParseAll(ders, crypto).value
    ensures der in ders && crypto.parse(der) == Some(cert)
  {
    der := ders[0];
    if crypto.parse(der) != Some(cert) {
      der := ParsedFrom(ders[1..], crypto, cert);
    }
  }

  /** The path ends in a holder of the root's key, and with a certificate before it that the key signed. */
  lemma EndOfPath(path: seq<Cert>, leafDer: Der, bundle: seq<Der>, rootDer: Der, crypto: Crypto)
    requires bundle != [] && AcceptedBy(path, leafDer, bundle, rootDer, crypto)
    ensures |path| > 1
    ensures
      var key := crypto.parse(rootDer).value.key;
      && (exists der :: Holds(der, key, crypto) && crypto.parse(der).value == path[|path| - 1])
      && (exists der :: Signed(der, key, crypto))
  {
    var n, certs := |path|, ParseAll(bundle, crypto).value;
    assert |certs| > 0;
    PathTakesAll(path, crypto.parse(leafDer).value, certs);
    assert path == [path[0]] + path[1..] && SignedBy(path[n - 2], path[n - 1], crypto);
    var last := InBundle(path, n - 1, leafDer, bundle, crypto);
    var child := InBundle(path, n - 2, leafDer, bundle, crypto);
    assert Holds(last, crypto.parse(rootDer).value.key, crypto) && Signed(child, crypto.parse(rootDer).value.key, crypto);
  }

  /** Each certificate of the path was parsed from something. */
  lemma InBundle(path: seq<Cert>, i: nat, leafDer: Der, bundle: seq<Der>, crypto: Crypto) returns (der: Der)
    requires crypto.parse(leafDer).Some? && ParseAll(bundle, crypto).Some? && i < |path|
    requires path[0] == crypto.parse(leafDer).value && multiset(path[1..]) == multiset(ParseAll(bundle, crypto).value)
    ensures crypto.parse(der) == Some(path[i])
  {
    der := leafDer;
    if i > 0 {
      assert path[1..][i - 1] == path[i];
      assert path[i] in multiset(path[1..]);
      der := ParsedFrom(bundle, crypto, path[i]);
    }
  }

  /** Anything the root's key signed makes an accepted chain with anything that holds it. */
  lemma UnsignedHolderAccepted(child: Der, holder: Der, rootDer: Der, crypto: Crypto)
    requires crypto.parse(rootDer).Some? && crypto.onCurve(crypto.parse(rootDer).value.key)
    requires Signed(child, crypto.parse(rootDer).value.key, crypto)
    requires Holds(holder, crypto.parse(rootDer).value.key, crypto)
    ensures AcceptedBy([crypto.parse(child).value, crypto.parse(holder).value], child, [holder], rootDer, crypto)
    ensures Accepted(child, [holder], rootDer, crypto)
  {
    ParseOne(holder, crypto);
    var path := [crypto.parse(child).value] + [crypto.parse(holder).value];
    assert path == [crypto.parse(child).value, crypto.parse(holder).value];
    assert GoodPath(path, crypto.parse(child).value, ParseAll([holder], crypto).value,
                    crypto.parse(rootDer).value.key, crypto);
    AcceptedExactly(child, [holder], rootDer, crypto);
  }

  const LEAF := Cert("leaf key", "leaf", "by the root key")
  const LAST := Cert("root key", "last", "by nobody")
  const ROOT := Cert("root key", "root", "by the root key")

  /** A bundle whose one certificate holds the root's key but is signed by no one. */
  function UnsignedBundle(): Crypto {
    Crypto(
      (der: Der) => if der == "leaf" then Some(LEAF) else if der == "last" then Some(LAST)
                    else if der == "root" then Some(ROOT) else None,
      (key: Key) => key == "root key",
      (key: Key, cert: Cert) => key == "root key" && cert != LAST)
  }

  /** The chain is accepted although the root's key did not sign its last certificate. */
  lemma UnsignedLastAccepted()
    ensures Accepted("leaf", ["last"], "root", UnsignedBundle())
    ensures !UnsignedBundle().signs(ROOT.key, LAST)
  {
    var crypto := UnsignedBundle();
    ParseOne("last", crypto);
    OrderExactly(LEAF, [LAST], ROOT.key, crypto);
    assert Path([LEAF] + [LAST], crypto);
  }
}
