/**
 * The collector's configuration (`kubeGC` and `NewKubeGC` in
 * pkg/kubegc/kubegc.go), its textual description (`String`) and the record
 * of one object scheduled for deletion (`orphanResource`).
 */
module KubeGC {
  import opened Wrappers
  import opened GoStrings
  import opened Labels

  /** The optional annotation constraint; an empty name means "no constraint". */
  datatype AnnotationFilter = AnnotationFilter(name: string, value: string)

  /**
   * The configured collector: namespace scope (empty for cluster wide), the
   * normalised label selector and the annotation filter. The REST client
   * configuration is not modelled.
   */
  datatype Gc = Gc(namespace: string, selector: seq<Requirement>, filter: AnnotationFilter)

  /** One object to delete: where to find it and what kind of object it is. */
  datatype Orphan = Orphan(
    groupVersion: string,
    kind: string,
    resource: string,
    namespace: string,
    name: string)

  const FilterSyntaxError: string :=
    "'annotationFilter' string cannot be parsed (has to be 'name=value')"

  /**
   * Parses the `--annotation-filter` string: empty means no constraint;
   * otherwise it must contain exactly one `=`, and both sides are trimmed.
   */
  function ParseAnnotationFilter(annotationFilter: string): (r: Result<AnnotationFilter, string>)
    ensures annotationFilter == [] ==> r == Success(AnnotationFilter("", ""))
    ensures annotationFilter != [] && Count(annotationFilter, '=') != 1 ==>
              r == Failure(FilterSyntaxError)
    ensures forall i :: 0 <= i < |annotationFilter| && annotationFilter[i] == '=' &&
                        Count(annotationFilter, '=') == 1 ==>
              r == Success(AnnotationFilter(TrimSpace(annotationFilter[..i]),
                                            TrimSpace(annotationFilter[i + 1..])))
  {
    if annotationFilter == [] then Success(AnnotationFilter("", ""))
    else
      var parts := Split(annotationFilter, '=');
      if |parts| != 2 then Failure(FilterSyntaxError)
      else
        assert forall i :: 0 <= i < |annotationFilter| && annotationFilter[i] == '=' ==>
                 parts == [annotationFilter[..i], annotationFilter[i + 1..]] by {
          forall i | 0 <= i < |annotationFilter| && annotationFilter[i] == '='
            ensures parts == [annotationFilter[..i], annotationFilter[i + 1..]]
          {
            SplitAtSole(annotationFilter, '=', i);
          }
        }
        Success(AnnotationFilter(TrimSpace(parts[0]), TrimSpace(parts[1])))
  }

  /** A filter whose name is empty, such as "=x", imposes no constraint. */
  lemma EmptyNameMeansNoFilter()
    ensures ParseAnnotationFilter("=x") == Success(AnnotationFilter("", "x"))
  {
    var f := "=x";
    assert Count(f[1..], '=') == 0;
    assert f[..0] == [] && f[1..] == "x";
    TrimSpaceIsCore("x", 0, 1);
  }

  /** Both sides are trimmed, so a name made only of white space imposes no constraint. */
  lemma BlankNameMeansNoFilter()
    ensures ParseAnnotationFilter(" = keep") == Success(AnnotationFilter("", "keep"))
  {
    var g := " = keep";
    BlankFilterHasOneSeparator();
    assert g[..1] == " " && g[1] == '=' && g[2..] == " keep";
    BlankTrimmed();
    PaddedValueTrimmed();
  }

  lemma BlankTrimmed()
    ensures TrimSpace(" ") == ""
  {
    TrimSpaceIsCore(" ", 1, 1);
  }

  lemma PaddedValueTrimmed()
    ensures TrimSpace(" keep") == "keep"
  {
    var v := " keep";
    assert v[..1] == " " && v[1..5] == "keep" && v[5..] == "";
    TrimSpaceIsCore(v, 1, 5);
  }

  lemma BlankFilterHasOneSeparator()
    ensures Count(" = keep", '=') == 1
  {
    var g := " = keep";
    assert g[1..] == "= keep" && g[1..][1..] == " keep";
    assert '=' !in " keep";
  }

  /**
   * `selector` is `requirements` followed by one `Exists` requirement for the
   * key of each of them, in the same order.
   */
  ghost predicate NormalizedFrom(selector: seq<Requirement>, requirements: seq<Requirement>)
  {
    && |selector| == 2 * |requirements|
    && selector[..|requirements|] == requirements
    && forall k :: 0 <= k < |requirements| ==>
         selector[|requirements| + k] == ExistsRequirement(requirements[k].key)
  }

  /** The loop of `NewKubeGC` that adds an `Exists` requirement per parsed requirement. */
  method NormalizeSelector(requirements: seq<Requirement>) returns (selector: seq<Requirement>)
    ensures NormalizedFrom(selector, requirements)
  {
    selector := requirements;
    for i := 0 to |requirements|
      invariant |selector| == |requirements| + i
      invariant selector[..|requirements|] == requirements
      invariant forall k :: 0 <= k < i ==>
                  selector[|requirements| + k] == ExistsRequirement(requirements[k].key)
    {
      selector := Add(selector, ExistsRequirement(requirements[i].key));
    }
  }

  /**
   * A normalised selector keeps every original requirement, requires the
   * presence of every key it mentions, and adds nothing but `Exists`
   * requirements on original keys.
   */
  lemma NormalizedCovers(selector: seq<Requirement>, requirements: seq<Requirement>)
    requires NormalizedFrom(selector, requirements)
    ensures forall r :: r in requirements ==> r in selector
    ensures forall r :: r in selector ==> ExistsRequirement(r.key) in selector
    ensures forall r :: r in selector && r !in requirements ==>
              r.op == Exists && r.values == [] &&
              exists q :: q in requirements && q.key == r.key
  {
    var n := |requirements|;
    forall r | r in requirements ensures r in selector {
      assert r in selector[..n];
    }
    forall r | r in selector ensures ExistsRequirement(r.key) in selector {
      var k :| 0 <= k < |selector| && selector[k] == r;
      if k < n {
        assert selector[n + k] == ExistsRequirement(requirements[k].key);
      } else {
        var q := requirements[k - n];
        assert selector[n + (k - n)] == ExistsRequirement(q.key);
      }
    }
    forall r | r in selector && r !in requirements
      ensures r.op == Exists && r.values == [] && exists q :: q in requirements && q.key == r.key
    {
      var k :| 0 <= k < |selector| && selector[k] == r;
      if k >= n {
        assert selector[n + (k - n)] == ExistsRequirement(requirements[k - n].key);
        assert requirements[k - n] in requirements;
      }
    }
  }

  /**
   * Normalisation does not look at the operator: a `!key` requirement also gets
   * an `Exists` requirement on its key, so the selector asks for the label to
   * be both absent and present.
   */
  lemma NotKeyAlsoGetsExists(selector: seq<Requirement>, key: string)
    requires NormalizedFrom(selector, [Requirement(key, DoesNotExist, [])])
    ensures selector == [Requirement(key, DoesNotExist, []), ExistsRequirement(key)]
  {
    assert selector[..1][0] == selector[0];
    assert selector[1 + 0] == ExistsRequirement(key);
  }

  /**
   * `NewKubeGC`: the annotation filter is checked first, then the label
   * selector (`parse` stands for `labels.Parse`) is parsed and normalised.
   */
  method NewKubeGC(
    namespace: string,
    labelSelector: string,
    annotationFilter: string,
    parse: string -> Result<seq<Requirement>, string>)
    returns (r: Result<Gc, string>)
    ensures ParseAnnotationFilter(annotationFilter).Failure? ==> r == Failure(FilterSyntaxError)
    ensures ParseAnnotationFilter(annotationFilter).Success? && parse(labelSelector).Failure? ==>
              r == Failure(parse(labelSelector).error)
    ensures ParseAnnotationFilter(annotationFilter).Success? && parse(labelSelector).Success? ==>
              && r.Success?
              && r.value.namespace == namespace
              && r.value.filter == ParseAnnotationFilter(annotationFilter).value
              && NormalizedFrom(r.value.selector, parse(labelSelector).value)
  {
    var filter := ParseAnnotationFilter(annotationFilter);
    if filter.Failure? {
      return Failure(filter.error);
    }
    var parsed := parse(labelSelector);
    if parsed.Failure? {
      return Failure(parsed.error);
    }
    var selector := NormalizeSelector(parsed.value);
    r := Success(Gc(namespace, selector, filter.value));
  }

  /** The scope shown by `String`: the namespace, or "Cluster wide" when there is none. */
  function Scope(namespace: string): (scope: string)
    ensures scope != []
    ensures ' ' !in namespace ==> (scope == "Cluster wide" <==> namespace == [])
    ensures namespace != [] ==> scope == namespace
  {
    if namespace == [] then "Cluster wide" else namespace
  }

  /**
   * `String`: a one-line description of the configuration. `selectorText`
   * stands for the library's rendering of the selector.
   */
  function Describe(gc: Gc, selectorText: string): (s: string)
    ensures HasPrefix(s, "Scope: '" + Scope(gc.namespace) + "', LabelSelector: '" + selectorText + "', ")
    ensures HasSuffix(s, "AnnotationFilter: '" + gc.filter.name + "=" + gc.filter.value + "'")
    ensures |s| == |"Scope: '" + Scope(gc.namespace) + "', LabelSelector: '" + selectorText + "', "|
                   + |"AnnotationFilter: '" + gc.filter.name + "=" + gc.filter.value + "'"|
  {
    var head := "Scope: '" + Scope(gc.namespace) + "', LabelSelector: '" + selectorText + "', ";
    var tail := "AnnotationFilter: '" + gc.filter.name + "=" + gc.filter.value + "'";
    ConcatHasPrefixSuffix(head, tail);
    head + tail
  }

  /** The selector can be read back from the description: different selectors give different descriptions. */
  lemma DescribeShowsSelector(gc: Gc, t1: string, t2: string)
    requires Describe(gc, t1) == Describe(gc, t2)
    ensures t1 == t2
  {
    var s := Describe(gc, t1);
    var h := "Scope: '" + Scope(gc.namespace) + "', LabelSelector: '";
    var h1, h2 := h + t1 + "', ", h + t2 + "', ";
    assert |t1| == |t2|;
    assert s[..|h1|] == h1 && s[..|h2|] == h2;
    assert h1[|h|..|h| + |t1|] == t1;
    assert h2[|h|..|h| + |t2|] == t2;
  }
}
