/**
 * import_light_refs of scene.c: a scene names its lights in one comma-separated
 * attribute; each name is resolved against the lights the file declared and the
 * scene keeps up to MAX_LIGHTS references to them.
 */
module LightRefs {
  import opened Wrappers
  import opened CStrings

  /** MAX_LIGHTS of scene.h */
  const MaxLights := 8

  function Commas(s: string): nat
  {
    multiset(s)[',']
  }

  /**
   * The light a reference names: the LAST light whose name starts with the
   * reference (strncmp over the reference's length, and no break in the loop).
   */
  function Resolve(names: seq<string>, token: string): (r: Option<nat>)
    ensures r.Some? ==> r.value < |names| && token <= names[r.value]
    ensures r.Some? ==> forall k | r.value < k < |names| :: !(token <= names[k])
    ensures r.None? ==> forall k | 0 <= k < |names| :: !(token <= names[k])
  {
    if names == [] then None
    else if token <= names[|names| - 1] then Some(|names| - 1)
    else Resolve(names[..|names| - 1], token)
  }

  /** The empty reference (as between two adjacent commas) names the last light there is. */
  lemma EmptyTokenMatchesLast(names: seq<string>)
    requires names != []
    ensures Resolve(names, "") == Some(|names| - 1)
  {
    assert "" <= names[|names| - 1];
  }

  /**
   * The scan of import_light_refs: the position `p` is a cut when it holds a
   * comma or is the end of the string; each cut closes the token that began after
   * the previous one. `Scan(s, first, e)` is the list of tokens closed and the
   * start of the open one after positions first .. e-1 were examined.
   */
  function Scan(s: string, first: nat, e: nat): (st: (seq<string>, nat))
    requires first <= e <= |s| + 1
    ensures st.1 <= e
    decreases e - first
  {
    if e == first then ([], 0)
    else
      var prev := Scan(s, first, e - 1);
      var p := e - 1;
      if p == |s| || s[p] == ',' then (prev.0 + [s[prev.1..p]], p + 1) else prev
  }

  /**
   * The references as the source reads them: `end` is advanced before it is
   * tested, so position 0 is never taken for a separator.
   */
  function ScannedRefs(s: string): seq<string>
  {
    Scan(s, 1, |s| + 1).0
  }

  /** The references when every comma separates two of them. */
  function Refs(s: string): seq<string>
  {
    Scan(s, 0, |s| + 1).0
  }

  /** Until the end is reached, one token is closed per comma examined. */
  lemma {:induction false} ScanCount(s: string, first: nat, e: nat)
    requires first <= e <= |s|
    ensures |Scan(s, first, e).0| == Commas(s[first..e])
    decreases e - first
  {
    if e > first {
      ScanCount(s, first, e - 1);
      assert s[first..e] == s[first..e - 1] + [s[e - 1]];
    }
  }

  lemma CommasOfPart(s: string, first: nat, e: nat)
    requires first <= e <= |s|
    ensures Commas(s[first..e]) <= Commas(s)
  {
    assert s == s[..first] + s[first..e] + s[e..];
  }

  /** Every comma separates: there is one reference more than there are commas. */
  lemma RefsCount(s: string)
    ensures |Refs(s)| == Commas(s) + 1
  {
    ScanCount(s, 0, |s|);
    assert s[0..|s|] == s;
  }

  /**
   * The source's reading: a leading comma is glued to the first reference, so
   * there is one reference fewer than the count the source records.
   */
  lemma ScannedRefsCount(s: string)
    requires s != []
    ensures |ScannedRefs(s)| == Commas(s) + 1 - (if s[0] == ',' then 1 else 0)
  {
    ScanCount(s, 1, |s|);
    assert s == [s[0]] + s[1..|s|];
  }

  /** Without a leading comma both readings give the same references. */
  lemma {:induction false} ScanFromOne(s: string, e: nat)
    requires s != [] && s[0] != ',' && 1 <= e <= |s| + 1
    ensures Scan(s, 1, e) == Scan(s, 0, e)
  {
    if e > 1 {
      ScanFromOne(s, e - 1);
    }
  }

  lemma ScannedRefsAgree(s: string)
    requires s != [] && s[0] != ','
    ensures ScannedRefs(s) == Refs(s)
  {
    ScanFromOne(s, |s| + 1);
  }

  /** The references joined back with commas. */
  function Join(refs: seq<string>): string
    requires refs != []
  {
    if |refs| == 1 then refs[0] else Join(refs[..|refs| - 1]) + [','] + refs[|refs| - 1]
  }

  /**
   * What the scan from position 0 has seen of s[..e]: the closed tokens joined
   * with commas, each followed by its comma, make up s[..n], no token holds a
   * comma, and none has been seen since n.
   */
  predicate ScanState(s: string, e: nat, ts: seq<string>, n: nat)
    requires n <= e <= |s|
  {
    (ts == [] ==> n == 0) &&
    (ts != [] ==> 0 < n && s[..n] == Join(ts) + [',']) &&
    (forall k | 0 <= k < |ts| :: ',' !in ts[k]) &&
    (forall q | n <= q < e :: s[q] != ',')
  }

  lemma CutStep(s: string, e: nat, ts: seq<string>, n: nat)
    requires n <= e < |s| && s[e] == ',' && ScanState(s, e, ts, n)
    ensures ScanState(s, e + 1, ts + [s[n..e]], e + 1)
  {
    var ts' := ts + [s[n..e]];
    assert ts'[..|ts'| - 1] == ts;
    if ts == [] {
      assert s[..e + 1] == s[n..e] + [','];
    } else {
      assert s[..e + 1] == s[..n] + s[n..e] + [','];
    }
    assert ',' !in s[n..e] by {
      forall k | 0 <= k < e - n ensures s[n..e][k] != ',' {
        assert s[n..e][k] == s[n + k];
      }
    }
  }

  /** The state of the scan from position 0 while the end is not reached. */
  lemma {:induction false} ScanShape(s: string, e: nat)
    requires e <= |s|
    ensures ScanState(s, e, Scan(s, 0, e).0, Scan(s, 0, e).1)
  {
    if e > 0 {
      ScanShape(s, e - 1);
      var prev := Scan(s, 0, e - 1);
      if s[e - 1] == ',' {
        CutStep(s, e - 1, prev.0, prev.1);
      }
    }
  }

  /** Splitting on every comma and joining with commas gives back the string. */
  lemma RefsJoin(s: string)
    ensures Join(Refs(s)) == s
    ensures forall t | t in Refs(s) :: ',' !in t
  {
    ScanShape(s, |s|);
    var prev := Scan(s, 0, |s|);
    var last := s[prev.1..|s|];
    var refs := prev.0 + [last];
    assert Refs(s) == refs;
    assert refs[..|refs| - 1] == prev.0;
    if prev.0 != [] {
      assert s == s[..prev.1] + last;
    }
    assert ',' !in last by {
      forall k | 0 <= k < |last| ensures last[k] != ',' {
        assert last[k] == s[prev.1 + k];
      }
    }
  }

  /**
   * The slots the resolving loop fills, in order: each reference's light, up to
   * and including the first reference that names none, where the loop stops.
   */
  function Written(names: seq<string>, refs: seq<string>): (w: seq<Option<nat>>)
    ensures |w| <= |refs|
    ensures None !in w ==> |w| == |refs|
  {
    if refs == [] then []
    else
      var w := Written(names, refs[..|refs| - 1]);
      if None in w then w else w + [Resolve(names, refs[|refs| - 1])]
  }

  /** Each filled slot names the last light that starts with its reference. */
  lemma {:induction false} WrittenResolves(names: seq<string>, refs: seq<string>, k: nat)
    requires k < |Written(names, refs)|
    ensures Written(names, refs)[k] == Resolve(names, refs[k])
  {
    var w := Written(names, refs[..|refs| - 1]);
    if k < |w| {
      WrittenResolves(names, refs[..|refs| - 1], k);
    }
  }

  /** The slots after a scan: `w` at the front, the rest as they were. */
  predicate Filled(before: seq<Option<nat>>, after: seq<Option<nat>>, w: seq<Option<nat>>)
  {
    |w| <= |after| == |before| && after[..|w|] == w && after[|w|..] == before[|w|..]
  }

  lemma FilledStep(before: seq<Option<nat>>, mid: seq<Option<nat>>, after: seq<Option<nat>>,
                   w: seq<Option<nat>>, r: Option<nat>)
    requires Filled(before, mid, w) && |w| < |mid| && after == mid[|w| := r]
    ensures Filled(before, after, w + [r])
  {
    assert after[..|w| + 1] == mid[..|w|] + [r];
  }

  lemma FilledAllSome(before: seq<Option<nat>>, after: seq<Option<nat>>, w: seq<Option<nat>>)
    requires Filled(before, after, w) && None !in w
    ensures forall k | 0 <= k < |w| :: after[k].Some?
  {
    forall k | 0 <= k < |w| ensures after[k].Some? {
      assert after[k] == w[k];
    }
  }

  /** While every reference so far was found, the next one fills the next slot. */
  lemma WrittenStep(names: seq<string>, refs: seq<string>, t: string)
    requires None !in Written(names, refs)
    ensures Written(names, refs + [t]) == Written(names, refs) + [Resolve(names, t)]
  {
    assert (refs + [t])[..|refs|] == refs;
  }

  /** Once a reference is not found nothing more is written. */
  lemma {:induction false} WrittenStops(names: seq<string>, refs: seq<string>, full: seq<string>)
    requires refs <= full && None in Written(names, refs)
    ensures Written(names, full) == Written(names, refs)
    decreases |full|
  {
    if |full| > |refs| {
      assert refs <= full[..|full| - 1];
      WrittenStops(names, refs, full[..|full| - 1]);
    } else {
      assert refs == full;
    }
  }

  /** Scanning further only adds tokens. */
  lemma {:induction false} ScanPrefix(s: string, first: nat, e: nat, e': nat)
    requires first <= e <= e' <= |s| + 1
    ensures Scan(s, first, e).0 <= Scan(s, first, e').0
    decreases e' - e
  {
    if e < e' {
      ScanPrefix(s, first, e, e' - 1);
    }
  }

  /** A reference that is not found at a cut is the last one the scan writes. */
  lemma FailureIsFinal(names: seq<string>, s: string, first: nat, end: nat, done: seq<string>, name: nat)
    requires first <= end <= |s| && (done, name) == Scan(s, first, end)
    requires end == |s| || s[end] == ','
    requires None in Written(names, done + [s[name..end]])
    ensures Written(names, Scan(s, first, |s| + 1).0) == Written(names, done + [s[name..end]])
  {
    assert Scan(s, first, end + 1).0 == done + [s[name..end]];
    ScanPrefix(s, first, end + 1, |s| + 1);
    WrittenStops(names, done + [s[name..end]], Scan(s, first, |s| + 1).0);
  }

  /** `struct Scene`'s light references: `light[i]` is the index of a light, or NULL. */
  class SceneLights {
    var numLights: int
    const light: array<Option<nat>>

    constructor ()
      ensures numLights == 0 && fresh(light) && light.Length == MaxLights
    {
      numLights := 0;
      light := new Option<nat>[MaxLights](_ => None);
    }

    /**
     * import_light_refs as the source has it. `names` are the names of the
     * declared lights, `s` the attribute. The count is recorded before the
     * MAX_LIGHTS test, so it is recorded on that failure too.
     */
    method ImportLightRefs(names: seq<string>, s: string) returns (ok: bool)
      requires light.Length == MaxLights
      modifies this, light
      ensures s == [] ==> ok && numLights == 0 && light[..] == old(light[..])
      ensures s != [] ==> numLights == Commas(s) + 1
      ensures s != [] && numLights > MaxLights ==> !ok && light[..] == old(light[..])
      ensures s != [] && numLights <= MaxLights ==>
                Filled(old(light[..]), light[..], Written(names, ScannedRefs(s))) &&
                (ok <==> None !in Written(names, ScannedRefs(s)))
    {
      if s == [] {
        numLights := 0;
        return true;
      }
      numLights := CountRefs(s);
      if numLights > MaxLights {
        return false;
      }
      ok := ResolveRefs(names, s, 1);
    }

    /** The same with every comma taken for a separator: on success every counted slot names a light. */
    method ImportLightRefsFixed(names: seq<string>, s: string) returns (ok: bool)
      requires light.Length == MaxLights
      modifies this, light
      ensures s == [] ==> ok && numLights == 0 && light[..] == old(light[..])
      ensures s != [] ==> numLights == Commas(s) + 1
      ensures s != [] && numLights > MaxLights ==> !ok && light[..] == old(light[..])
      ensures s != [] && numLights <= MaxLights ==>
                Filled(old(light[..]), light[..], Written(names, Refs(s))) &&
                (ok <==> None !in Written(names, Refs(s)))
      ensures ok ==> 0 <= numLights <= MaxLights && forall k | 0 <= k < numLights :: light[k].Some?
    {
      if s == [] {
        numLights := 0;
        return true;
      }
      numLights := CountRefs(s);
      if numLights > MaxLights {
        return false;
      }
      ok := ResolveRefs(names, s, 0);
      RefsCount(s);
      if ok {
        FilledAllSome(old(light[..]), light[..], Written(names, Refs(s)));
      }
    }

    /**
     * The resolving loop: `end` runs over the examined positions, from `first`;
     * at every cut the token from `name` to `end` is looked up in slot i.
     */
    method ResolveRefs(names: seq<string>, s: string, first: nat) returns (ok: bool)
      requires light.Length == MaxLights && s != [] && first <= 1
      requires Commas(s) + 1 <= MaxLights
      modifies light
      ensures Filled(old(light[..]), light[..], Written(names, Scan(s, first, |s| + 1).0))
      ensures ok <==> None !in Written(names, Scan(s, first, |s| + 1).0)
    {
      var i := 0;
      var name := 0;
      var end := first - 1;
      ghost var done: seq<string> := [];
      while end < |s|
        invariant first - 1 <= end <= |s|
        invariant (done, name) == Scan(s, first, end + 1)
        invariant i == |done| && None !in Written(names, done)
        invariant Filled(old(light[..]), light[..], Written(names, done))
      {
        end := end + 1;
        if end == |s| || s[end] == ',' {
          var found := CloseRef(names, s, first, name, end, i, done, old(light[..]));
          if !found {
            FailureIsFinal(names, s, first, end, done, name);
            return false;
          }
          done := done + [s[name..end]];
          name := end + 1;
          i := i + 1;
        }
      }
      return true;
    }

    /** One cut: the token from `name` to `end` is looked up into slot i. */
    method CloseRef(names: seq<string>, s: string, first: nat, name: nat, end: nat, i: nat,
                    ghost done: seq<string>, ghost before: seq<Option<nat>>) returns (found: bool)
      requires light.Length == MaxLights && Commas(s) + 1 <= MaxLights
      requires first <= end <= |s| && (done, name) == Scan(s, first, end)
      requires i == |done| && None !in Written(names, done)
      requires Filled(before, light[..], Written(names, done))
      modifies light
      ensures Filled(before, light[..], Written(names, done + [s[name..end]]))
      ensures found <==> None !in Written(names, done + [s[name..end]])
    {
      ScanCount(s, first, end);
      CommasOfPart(s, first, end);
      ghost var mid := light[..];
      LookUp(names, s, name, end, i);
      WrittenStep(names, done, s[name..end]);
      FilledStep(before, mid, light[..], Written(names, done), Resolve(names, s[name..end]));
      found := light[i] != None;
    }

    /** The inner loop: slot i becomes the last light whose name starts with s[name..end]. */
    method LookUp(names: seq<string>, s: string, name: nat, end: nat, i: nat)
      requires name <= end <= |s| && i < light.Length
      modifies light
      ensures light[..] == old(light[..])[i := Resolve(names, s[name..end])]
    {
      light[i] := None;
      for j := 0 to |names|
        invariant light[..] == old(light[..])[i := Resolve(names[..j], s[name..end])]
      {
        StrnCmpPrefix(names[j], s[name..], end - name);
        assert s[name..][..end - name] == s[name..end];
        assert names[..j + 1][..j] == names[..j];
        if StrnCmp(names[j], s[name..], end - name) == 0 {
          light[i] := Some(j);
        }
      }
      assert names[..|names|] == names;
    }
  }

  /** The counting loop: one reference, plus one per comma. */
  method CountRefs(s: string) returns (count: int)
    ensures count == Commas(s) + 1
  {
    count := 1;
    for k := 0 to |s|
      invariant count == Commas(s[..k]) + 1
    {
      assert s[..k + 1] == s[..k] + [s[k]];
      if s[k] == ',' {
        count := count + 1;
      }
    }
    assert s[..|s|] == s;
  }

  /**
   * A leading comma: ",x" counts two references but the scan closes only one,
   * ",x" itself, so slot 1 is never written although the count says it is in use.
   */
  lemma LeadingCommaLeavesSlot()
    ensures Commas(",x") + 1 == 2
    ensures ScannedRefs(",x") == [",x"]
    ensures Refs(",x") == ["", "x"]
  {
    var s := ",x";
    assert s == [','] + ['x'];
    assert s[0] == ',' && s[1] == 'x';
    assert Scan(s, 1, 1) == ([], 0);
    assert Scan(s, 1, 2) == ([], 0);
    assert |s| == 2;
    assert [] + [s[0..2]] == [s[0..2]];
    assert Scan(s, 1, 3) == ([s[0..2]], 3);
    assert Scan(s, 0, 0) == ([], 0);
    assert [] + [s[0..0]] == [s[0..0]];
    assert Scan(s, 0, 1) == ([s[0..0]], 1);
    assert Scan(s, 0, 2) == ([s[0..0]], 1);
    assert [s[0..0]] + [s[1..2]] == [s[0..0], s[1..2]];
    assert Scan(s, 0, 3) == ([s[0..0], s[1..2]], 3);
    assert s[0..2] == ",x" && s[0..0] == "" && s[1..2] == "x";
  }

}
