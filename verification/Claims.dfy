/** Resource claims of a tool call: normal form, conflict and extension
    (core/tools/resource.go). */
module Claims {
  import opened Order

  datatype Access = Read | Write

  datatype Claim = Claim(resource: string, access: Access)

  datatype ClaimResult = Claims(claims: seq<Claim>) | Rejected(reason: string)

  const ROOT: string := "serpe.tools.root.v1"
  const ROOT_READ := Claim(ROOT, Read)
  const ROOT_WRITE := Claim(ROOT, Write)
  const MAX_CLAIMS_PER_CALL := 64
  const MAX_RESOURCE_BYTES := 4096

  predicate IsControl(c: char)
  {
    c < ' ' || '\U{7f}' <= c <= '\U{9f}'
  }

  predicate ValidClaim(c: Claim)
  {
    0 < |c.resource| <= MAX_RESOURCE_BYTES && forall i :: 0 <= i < |c.resource| ==> !IsControl(c.resource[i])
  }

  /** A resource has a name of limited length without a control character of Unicode. */
  lemma ValidClaimExactly(c: Claim)
    ensures ValidClaim(c) <==>
      && 1 <= |c.resource| <= 4096
      && forall i :: 0 <= i < |c.resource| ==> !(0 <= c.resource[i] as int <= 0x1F) && !(0x7F <= c.resource[i] as int <= 0x9F)
  {
    forall i | 0 <= i < |c.resource|
      ensures IsControl(c.resource[i]) <==> 0 <= c.resource[i] as int <= 0x1F || 0x7F <= c.resource[i] as int <= 0x9F
    {
    }
  }

  /** Two claims clash when they name one resource and at least one writes it. */
  predicate Clash(c: Claim, d: Claim)
  {
    c.resource == d.resource && (c.access == Write || d.access == Write)
  }

  /** Two claim lists conflict when any two of their claims clash. */
  ghost predicate Conflict(a: seq<Claim>, b: seq<Claim>)
  {
    exists c, d :: c in a && d in b && Clash(c, d)
  }

  /** Strictly sorted by resource, so each resource is named once. */
  ghost predicate Normal(claims: seq<Claim>)
  {
    && (forall i, j :: 0 <= i < j < |claims| ==> Less(claims[i].resource, claims[j].resource))
    && (forall c :: c in claims ==> ValidClaim(c))
  }

  /** The strongest access per resource: a claim of `input` survives unless it is a
      read of a resource that `input` also writes. */
  ghost predicate IsNormalFormOf(output: seq<Claim>, input: seq<Claim>)
  {
    && Normal(output)
    && forall c :: c in output <==> c in input && (c.access == Write || Claim(c.resource, Write) !in input)
  }

  ghost predicate TouchesRoot(claims: seq<Claim>)
  {
    exists c :: c in claims && c.resource == ROOT
  }

  ghost predicate Extendable(base: seq<Claim>, extra: seq<Claim>)
  {
    && |base| + |extra| <= MAX_CLAIMS_PER_CALL
    && (forall c :: c in base + extra ==> ValidClaim(c))
    && forall c :: c in extra && c.access == Read ==> Claim(c.resource, Write) !in base
  }

  // ---- conflict ----

  lemma NormalDistinct(claims: seq<Claim>, c: Claim, d: Claim)
    requires Normal(claims) && c in claims && d in claims && c.resource == d.resource
    ensures c == d
  {
    Irreflexive(c.resource);
    var i :| 0 <= i < |claims| && claims[i] == c;
    var j :| 0 <= j < |claims| && claims[j] == d;
    assert !(i < j) && !(j < i);
  }

  /** What the code looks up: the access of the last claim on each resource. */
  function LastAccess(claims: seq<Claim>): (m: map<string, Access>)
    ensures forall r :: r in m ==> Claim(r, m[r]) in claims
    ensures forall c :: c in claims ==> c.resource in m
  {
    if claims == [] then map[]
    else
      var front, last := claims[..|claims| - 1], claims[|claims| - 1];
      assert claims == front + [last];
      LastAccess(front)[last.resource := last.access]
  }

  /** A list that names each resource once is looked up as a whole. */
  lemma LastIsAll(claims: seq<Claim>, c: Claim)
    requires Normal(claims)
    ensures c in claims <==> c.resource in LastAccess(claims) && LastAccess(claims)[c.resource] == c.access
  {
    var m := LastAccess(claims);
    if c in claims {
      NormalDistinct(claims, c, Claim(c.resource, m[c.resource]));
    }
  }

  ghost predicate ClashesWithLast(a: seq<Claim>, b: seq<Claim>)
  {
    exists c :: c in a && c.resource in LastAccess(b) && Clash(c, Claim(c.resource, LastAccess(b)[c.resource]))
  }

  lemma ClashesWithLastMeans(a: seq<Claim>, b: seq<Claim>)
    ensures ClashesWithLast(a, b) ==> Conflict(a, b)
    ensures Normal(b) ==> (ClashesWithLast(a, b) <==> Conflict(a, b))
  {
    hide LastAccess;
    if ClashesWithLast(a, b) {
      var c :| c in a && c.resource in LastAccess(b) && Clash(c, Claim(c.resource, LastAccess(b)[c.resource]));
      assert Claim(c.resource, LastAccess(b)[c.resource]) in b;
    }
    if Normal(b) && Conflict(a, b) {
      var c, d :| c in a && d in b && Clash(c, d);
      LastIsAll(b, d);
    }
  }

  /** claimsConflict: a conflict is found only where there is one; none is missed when the
      second list names each resource once, as normalized lists do. */
  method ClaimsConflict(a: seq<Claim>, b: seq<Claim>) returns (conflict: bool)
    ensures conflict <==> ClashesWithLast(a, b)
    ensures conflict ==> Conflict(a, b)
    ensures Normal(b) ==> (conflict <==> Conflict(a, b))
  {
    ClashesWithLastMeans(a, b);
    hide Conflict, Normal;
    if |a| == 0 || |b| == 0 {
      assert |b| == 0 ==> LastAccess(b) == map[];
      return false;
    }
    hide LastAccess;
    var index := IndexLast(b);
    for i := 0 to |a|
      invariant forall k :: 0 <= k < i && a[k].resource in index ==> !Clash(a[k], Claim(a[k].resource, index[a[k].resource]))
    {
      var c := a[i];
      if c.resource in index && (c.access == Write || index[c.resource] == Write) {
        assert c in a;
        return true;
      }
    }
    return false;
  }

  method IndexLast(claims: seq<Claim>) returns (index: map<string, Access>)
    ensures index == LastAccess(claims)
  {
    index := map[];
    assert claims[..0] == [];
    for i := 0 to |claims|
      invariant index == LastAccess(claims[..i])
    {
      assert claims[..i + 1][..i] == claims[..i];
      index := index[claims[i].resource := claims[i].access];
    }
    assert claims[..|claims|] == claims;
  }

  // ---- normal form ----

  predicate SortedClaims(claims: seq<Claim>)
  {
    forall i, j :: 0 <= i < j < |claims| ==> Less(claims[i].resource, claims[j].resource)
  }

  /** Puts a claim on a fresh resource in its place, which is what sorting the
      unordered contents of a map amounts to. */
  function Insert(claims: seq<Claim>, c: Claim): (r: seq<Claim>)
    requires SortedClaims(claims) && forall d :: d in claims ==> d.resource != c.resource
    ensures SortedClaims(r) && forall d :: d in r <==> d in claims || d == c
  {
    if claims == [] then [c]
    else if Less(c.resource, claims[0].resource) then
      assert forall j :: 0 < j < |claims| ==> Less(claims[0].resource, claims[j].resource);
      Below(claims, c);
      [c] + claims
    else
      Total(c.resource, claims[0].resource);
      var rest := Insert(claims[1..], c);
      assert claims == [claims[0]] + claims[1..];
      assert forall d :: d in rest ==> Less(claims[0].resource, d.resource);
      [claims[0]] + rest
  }

  lemma Below(claims: seq<Claim>, c: Claim)
    requires SortedClaims(claims) && claims != [] && Less(c.resource, claims[0].resource)
    ensures forall j :: 0 <= j < |claims| ==> Less(c.resource, claims[j].resource)
  {
    forall j | 0 < j < |claims| ensures Less(c.resource, claims[j].resource) {
      Transitive(c.resource, claims[0].resource, claims[j].resource);
    }
  }

  /** Fails exactly on too many or invalid claims; otherwise returns the normal form. */
  method NormalizeClaims(input: seq<Claim>) returns (r: ClaimResult)
    ensures r.Claims? <==> |input| <= MAX_CLAIMS_PER_CALL && forall c :: c in input ==> ValidClaim(c)
    ensures r.Claims? ==> IsNormalFormOf(r.claims, input)
  {
    if |input| > MAX_CLAIMS_PER_CALL {
      return Rejected("claim budget exceeded");
    }
    var merged: map<string, Access> := map[];
    for i := 0 to |input|
      invariant forall c :: c in input[..i] ==> ValidClaim(c) && c.resource in merged
      invariant forall r :: r in merged ==> Claim(r, merged[r]) in input[..i]
      invariant forall c :: c in input[..i] && c.access == Write ==> merged[c.resource] == Write
    {
      var c := input[i];
      if !ValidClaim(c) {
        return Rejected("invalid claim");
      }
      assert input[..i + 1] == input[..i] + [c];
      if c.resource !in merged || c.access == Write || merged[c.resource] == Read {
        merged := merged[c.resource := c.access];
      }
    }
    assert input[..|input|] == input;
    var output: seq<Claim> := [];
    var todo := merged.Keys;
    while todo != {}
      invariant todo <= merged.Keys
      invariant SortedClaims(output)
      invariant forall c :: c in output <==> c.resource in merged.Keys - todo && c.access == merged[c.resource]
      decreases todo
    {
      var r :| r in todo;
      output := Insert(output, Claim(r, merged[r]));
      todo := todo - {r};
    }
    r := Claims(output);
  }

  /** A read was given for what was written last. */
  ghost predicate Weakens(base: seq<Claim>, extra: seq<Claim>)
  {
    exists c :: c in extra && c.access == Read && c.resource in LastAccess(base) && LastAccess(base)[c.resource] == Write
  }

  /** Of a normalized base, exactly the reads of what it writes are refused. */
  lemma ExtendableMeans(base: seq<Claim>, extra: seq<Claim>)
    requires Normal(base)
    ensures Extendable(base, extra) <==>
      |base| + |extra| <= MAX_CLAIMS_PER_CALL && (forall c :: c in base + extra ==> ValidClaim(c)) && !Weakens(base, extra)
  {
    hide LastAccess, ValidClaim;
    forall c: Claim ensures Claim(c.resource, Write) in base <==> c.resource in LastAccess(base) && LastAccess(base)[c.resource] == Write {
      LastIsAll(base, Claim(c.resource, Write));
    }
  }

  /** The scan of the added claims. */
  method FindWeakened(base: seq<Claim>, extra: seq<Claim>) returns (found: bool)
    ensures found <==> Weakens(base, extra)
  {
    hide LastAccess;
    var have := IndexLast(base);
    for i := 0 to |extra|
      invariant forall k :: 0 <= k < i && extra[k].access == Read && extra[k].resource in have ==> have[extra[k].resource] != Write
    {
      var c := extra[i];
      if c.resource in have && have[c.resource] == Write && c.access == Read {
        assert c in extra;
        return true;
      }
    }
    found := false;
  }

  /** Activation may add or upgrade claims, never weaken a static write. */
  method ExtendClaims(base: seq<Claim>, extra: seq<Claim>) returns (r: ClaimResult)
    ensures r.Claims? <==>
      |base| + |extra| <= MAX_CLAIMS_PER_CALL && (forall c :: c in base + extra ==> ValidClaim(c)) && !Weakens(base, extra)
    ensures r.Claims? ==> IsNormalFormOf(r.claims, base + extra)
  {
    hide ValidClaim, IsNormalFormOf, Weakens;
    if |extra| > MAX_CLAIMS_PER_CALL || |base| > MAX_CLAIMS_PER_CALL - |extra| {
      return Rejected("claim budget exceeded");
    }
    var weakened := FindWeakened(base, extra);
    if weakened {
      return Rejected("activation cannot weaken a static write claim");
    }
    r := NormalizeClaims(base + extra);
  }

  // ---- what extension keeps ----

  /** Extending never loses a conflict: whatever clashed with the static claims
      clashes with the complete ones. */
  lemma ExtensionKeepsConflicts(base: seq<Claim>, extra: seq<Claim>, complete: seq<Claim>, other: seq<Claim>)
    requires IsNormalFormOf(complete, base + extra)
    requires Conflict(base, other)
    ensures Conflict(complete, other)
  {
    var c, d :| c in base && d in other && Clash(c, d);
    var w := Claim(c.resource, Write);
    if w in base + extra {
      assert w in complete && Clash(w, d);
    } else {
      assert c in complete;
    }
  }

  lemma ExtensionTouchesRoot(base: seq<Claim>, extra: seq<Claim>, complete: seq<Claim>)
    requires IsNormalFormOf(complete, base + extra) && TouchesRoot(base)
    ensures TouchesRoot(complete)
  {
    var c :| c in base && c.resource == ROOT;
    assert c in base + extra;
    if ROOT_WRITE in base + extra {
      assert ROOT_WRITE in complete;
    } else {
      assert c in complete;
    }
  }

  /** A root writer conflicts with every call, because every call touches the root. */
  lemma RootWriterConflicts(a: seq<Claim>, b: seq<Claim>)
    requires ROOT_WRITE in a && TouchesRoot(b)
    ensures Conflict(a, b)
  {
    var d :| d in b && d.resource == ROOT;
    assert Clash(ROOT_WRITE, d);
  }

  lemma ConflictSymmetric(a: seq<Claim>, b: seq<Claim>)
    ensures Conflict(a, b) == Conflict(b, a)
  {
    if Conflict(a, b) {
      var c, d :| c in a && d in b && Clash(c, d);
      assert Clash(d, c);
    }
    if Conflict(b, a) {
      var c, d :| c in b && d in a && Clash(c, d);
      assert Clash(d, c);
    }
  }
}
