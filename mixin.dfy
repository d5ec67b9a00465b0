/**
 * The template-location convention of `TemplateLocationMixin`: a view whose
 * URL resolves to the routing namespace `app:blogger:profile` keeps its
 * templates under `app/blogger/profile/`, its shared base and partial
 * templates under `app/blogger/`, and may name another folder outright in its
 * `template_location` attribute.
 *
 * The namespace that the mixin obtains from the framework's URL resolver is a
 * parameter here. The class attributes `template_location` and
 * `template_name` are never updated by the mixin, so they are parameters too.
 */
module TemplateLocationMixin {
  import opened Wrappers
  import opened Strings

  /** The separator of routing namespaces. */
  const NamespaceSep: char := ':'

  /** The separator of template folders. */
  const PathSep: char := '/'

  /** `get_template_location`: the namespace with every `:` turned into `/`. */
  function TemplateLocation(namespace: string): (location: string)
    ensures |location| == |namespace|
    ensures forall i :: 0 <= i < |namespace| ==>
      location[i] == if namespace[i] == NamespaceSep then PathSep else namespace[i]
    ensures NamespaceSep !in location
  {
    Replace(namespace, NamespaceSep, PathSep)
  }

  /**
   * `get_base_location`: the first two namespace segments joined with `/`.
   * It is a prefix of the template location and so holds no `:` either.
   */
  function BaseLocation(namespace: string): (base: string)
    ensures base <= TemplateLocation(namespace)
    ensures NamespaceSep !in base
  {
    var segments := Split(namespace, NamespaceSep);
    ReplaceIsJoinOfSplit(namespace, NamespaceSep, PathSep);
    JoinTakeIsPrefix(segments, 2, [PathSep]);
    var base := Join(Take(segments, 2), [PathSep]);
    assert forall i :: 0 <= i < |base| ==> base[i] == TemplateLocation(namespace)[i];
    base
  }

  /** Python truthiness of `template_location`: it is falsy exactly when `None` or the empty string. */
  predicate IsSet(templateLocation: Option<string>): (isSet: bool)
    ensures !isSet <==> templateLocation == None || templateLocation == Some("")
  {
    templateLocation.Some? && templateLocation.value != ""
  }

  /**
   * `get_template`: the folder (the override when it is set, the template
   * location of the namespace otherwise) followed by `/` and the template name.
   */
  function Template(templateLocation: Option<string>, templateName: string, namespace: string): (path: string)
    ensures |path| > |templateName|
    ensures path[|path| - |templateName| - 1..] == [PathSep] + templateName
  {
    var folder := if IsSet(templateLocation) then templateLocation.value else TemplateLocation(namespace);
    folder + [PathSep] + templateName
  }

  /** The template location is the namespace's segments joined with `/`. */
  lemma TemplateLocationIsJoinedSegments(namespace: string)
    ensures TemplateLocation(namespace) == Join(Split(namespace, NamespaceSep), [PathSep])
  {
    ReplaceIsJoinOfSplit(namespace, NamespaceSep, PathSep);
  }

  /**
   * The base location is the template location cut just before the `/` that
   * replaced the namespace's second `:` (the whole of it when there is no
   * second `:`): with `k` segments (one more than the number of `:`), it is as long
   * as the first two segments and the `/` between them when `k >= 2`, and as
   * long as the whole namespace when `k == 1`.
   */
  lemma BaseLocationSegments(namespace: string)
    ensures var segments := Split(namespace, NamespaceSep);
      var k := |segments|;
      k == Occurrences(namespace, NamespaceSep) + 1 &&
      BaseLocation(namespace) <= TemplateLocation(namespace) &&
      |BaseLocation(namespace)| == if k >= 2 then |segments[0]| + 1 + |segments[1]| else |namespace|
  {
    var segments := Split(namespace, NamespaceSep);
    SplitCount(namespace, NamespaceSep);
    if |segments| >= 2 {
      var a, b := segments[0], segments[1];
      assert Take(segments, 2) == [a, b];
      assert [a, b][1..] == [b];
      assert Join([a, b], [PathSep]) == a + [PathSep] + b;
      assert |a + [PathSep] + b| == |a| + 1 + |b|;
    } else {
      ShortNamespaceBaseIsTemplateLocation(namespace);
    }
  }

  /** A namespace of three or more segments has a base location shorter than its template location. */
  lemma LongNamespaceBaseIsShorter(namespace: string)
    requires |Split(namespace, NamespaceSep)| >= 3
    ensures |BaseLocation(namespace)| < |TemplateLocation(namespace)|
    ensures BaseLocation(namespace) != TemplateLocation(namespace)
  {
    var segments := Split(namespace, NamespaceSep);
    BaseLocationSegments(namespace);
    JoinSplit(namespace, NamespaceSep);
    assert segments[1..][1..] == segments[2..];
    assert Join(segments, [NamespaceSep]) ==
      segments[0] + [NamespaceSep] + (segments[1] + [NamespaceSep] + Join(segments[2..], [NamespaceSep]));
  }

  /** A namespace of at most two segments has its template location as its base location. */
  lemma ShortNamespaceBaseIsTemplateLocation(namespace: string)
    requires |Split(namespace, NamespaceSep)| <= 2
    ensures BaseLocation(namespace) == TemplateLocation(namespace)
  {
    TemplateLocationIsJoinedSegments(namespace);
    assert Take(Split(namespace, NamespaceSep), 2) == Split(namespace, NamespaceSep);
  }

  /** The same, stated on separators: a namespace with at most one `:`. */
  lemma FewSeparatorsBaseIsTemplateLocation(namespace: string)
    requires Occurrences(namespace, NamespaceSep) <= 1
    ensures BaseLocation(namespace) == TemplateLocation(namespace)
  {
    SplitCount(namespace, NamespaceSep);
    ShortNamespaceBaseIsTemplateLocation(namespace);
  }

  /**
   * For a namespace without `/`, the base location holds exactly one `/`
   * when the namespace has a `:` and none otherwise (so at most one), and it
   * splits back at `/` into the first two namespace segments.
   */
  lemma BaseLocationShape(namespace: string)
    requires PathSep !in namespace
    ensures Occurrences(BaseLocation(namespace), PathSep) == if NamespaceSep in namespace then 1 else 0
    ensures Split(BaseLocation(namespace), PathSep) == Take(Split(namespace, NamespaceSep), 2)
  {
    var parts := Take(Split(namespace, NamespaceSep), 2);
    SplitChars(namespace, NamespaceSep);
    assert forall p :: p in parts ==> p in Split(namespace, NamespaceSep);
    assert forall p :: p in parts ==> PathSep !in p;
    JoinOccurrences(parts, PathSep);
    SplitCount(namespace, NamespaceSep);
    SplitJoin(parts, PathSep);
  }

  /** With `template_location` set, the namespace plays no part in the path. */
  lemma OverrideIgnoresNamespace(templateLocation: Option<string>, templateName: string, ns1: string, ns2: string)
    requires IsSet(templateLocation)
    ensures Template(templateLocation, templateName, ns1) == Template(templateLocation, templateName, ns2)
    ensures Template(templateLocation, templateName, ns1) == templateLocation.value + [PathSep] + templateName
  {
  }

  /**
   * Without `template_location` (`None` or `""`), the path is every namespace
   * segment followed by the template name, joined with `/`.
   */
  lemma DerivedTemplatePath(templateLocation: Option<string>, templateName: string, namespace: string)
    requires !IsSet(templateLocation)
    ensures Template(templateLocation, templateName, namespace) == TemplateLocation(namespace) + [PathSep] + templateName
    ensures Template(templateLocation, templateName, namespace) ==
      Join(Split(namespace, NamespaceSep) + [templateName], [PathSep])
  {
    TemplateLocationIsJoinedSegments(namespace);
    JoinSnoc(Split(namespace, NamespaceSep), templateName, [PathSep]);
  }

  /*
   * The worked example of the docstrings, the namespace `app:blogger:profile`.
   * It is passed as a parameter equal to the literal: on the literal itself
   * the verifier unfolds the recursive definitions eagerly and gets lost.
   * So these lemmas are about that one namespace only, not about all inputs.
   */

  /** The example namespace splits into `app`, `blogger` and `profile`. */
  lemma BloggerProfileSegments(namespace: string)
    requires namespace == "app:blogger:profile"
    ensures Split(namespace, NamespaceSep) == ["app", "blogger", "profile"]
  {
    var segments := ["app", "blogger", "profile"];
    assert segments[1..] == ["blogger", "profile"];
    assert segments[1..][1..] == ["profile"];
    assert Join(["blogger", "profile"], [NamespaceSep]) == "blogger:profile";
    assert Join(segments, [NamespaceSep]) == namespace;
    assert forall p :: p in segments ==> p == "app" || p == "blogger" || p == "profile";
    SplitJoin(segments, NamespaceSep);
  }

  /** The template and base locations of the example namespace. */
  lemma BloggerProfileLocations(namespace: string)
    requires namespace == "app:blogger:profile"
    ensures TemplateLocation(namespace) == "app/blogger/profile"
    ensures BaseLocation(namespace) == "app/blogger"
  {
    var segments := ["app", "blogger", "profile"];
    BloggerProfileSegments(namespace);
    TemplateLocationIsJoinedSegments(namespace);
    assert segments[1..] == ["blogger", "profile"];
    assert segments[1..][1..] == ["profile"];
    assert Join(["blogger", "profile"], [PathSep]) == "blogger/profile";
    assert Join(segments, [PathSep]) == "app/blogger/profile";
    assert Take(segments, 2) == ["app", "blogger"];
    assert ["app", "blogger"][1..] == ["blogger"];
    assert Join(["app", "blogger"], [PathSep]) == "app/blogger";
  }

  /** The template paths of the example namespace, without and with an override. */
  lemma BloggerProfileTemplates(namespace: string, templateName: string)
    requires namespace == "app:blogger:profile"
    ensures Template(None, templateName, namespace) == "app/blogger/profile/" + templateName
    ensures Template(Some(""), templateName, namespace) == "app/blogger/profile/" + templateName
    ensures Template(Some("custom/loc"), templateName, namespace) == "custom/loc/" + templateName
  {
    BloggerProfileLocations(namespace);
    DerivedTemplatePath(None, templateName, namespace);
    DerivedTemplatePath(Some(""), templateName, namespace);
  }
}
