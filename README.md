# Template locations from routing namespaces

This project models `TemplateLocationMixin`, a view mixin that derives where
a view's templates live from the routing namespace its URL resolves to. A
namespace such as `app:blogger:profile` gives three strings:

- the **template location** `app/blogger/profile`: every `:` replaced by `/`;
- the **base location** `app/blogger`: the first two `:`-separated segments
  joined with `/`, the folder of shared base and partial templates;
- the **template path**: the view's `template_location` attribute when it is
  set (neither `None` nor `""`), the template location otherwise, followed by
  `/` and the view's `template_name`.

The model is pure: module `Strings` (`strings.dfy`) gives the Python string
and list operations the mixin uses (`str.replace`, `str.split`, the slice
`[0:2]`, `str.join`) as functions, all but the slice recursive, with the laws
that connect them;
module `TemplateLocationMixin` (`mixin.dfy`) gives the three methods of the
mixin and the properties of their results; module `Wrappers`
(`wrappers.dfy`) holds the `Option` type that stands for an attribute that
may be `None`. The predicate `TemplateLocationMixin.IsSet` is Python's
truthiness of `template_location`.

The namespace, which the mixin reads from the framework's URL resolver, is a
parameter of every function. The attributes `template_location` and
`template_name` are only read by the mixin, so they are parameters as well,
and no class or state is modelled.

## Model

| member | source | states |
|---|---|---|
| `Strings.Replace` | app/views/mixin.py:31 | `str.replace` with one-character arguments: same length, and each position holds the replacement where the input holds the old character and the input's character elsewhere |
| `Strings.Split` | app/views/mixin.py:42 | `str.split` at one character: never an empty list (`""` gives `[""]`) and no segment holds the separator |
| `Strings.Take` | app/views/mixin.py:42 | the slice `[0:n]`: length `min(n, len)` and a prefix of the list |
| `Strings.Join` | app/views/mixin.py:42 | `sep.join(parts)`: no parts give `""`; otherwise the join starts with the first part and is as long as all parts plus one separator per neighbouring pair (with `JoinSnoc`, `JoinSplit`, `SplitJoin`, `JoinOccurrences` and `JoinTakeIsPrefix` for its other laws) |
| `Strings.SplitCount` | app/views/mixin.py:42 | the number of segments is one more than the number of separators |
| `Strings.SplitChars` | app/views/mixin.py:42 | every character of a segment occurs in the string that was split |
| `Strings.ReplaceIsJoinOfSplit` | app/views/mixin.py:31 | replacing `a` by `b` equals splitting at `a` and joining with `b` |
| `Strings.JoinSplit` | app/views/mixin.py:42 | joining the segments with their separator gives back the string |
| `Strings.SplitJoin` | app/views/mixin.py:42 | splitting the join of separator-free parts (at least one) gives back the parts |
| `Strings.JoinTakeIsPrefix` | app/views/mixin.py:42 | joining the first `n` parts gives a prefix of joining all of them |
| `Strings.JoinOccurrences` | app/views/mixin.py:42 | the join of `k >= 1` separator-free parts holds exactly `k - 1` separators |
| `TemplateLocationMixin.TemplateLocation` | app/views/mixin.py:19-31 | same length as the namespace, `/` where the namespace has `:`, the namespace's character everywhere else, and no `:` at all |
| `TemplateLocationMixin.BaseLocation` | app/views/mixin.py:33-42 | the base location is a prefix of the template location and holds no `:` |
| `TemplateLocationMixin.IsSet` | app/views/mixin.py:53 | the truthiness test of `template_location`: falsy exactly for `None` and `""` |
| `TemplateLocationMixin.Template` | app/views/mixin.py:44-56 | the template path is longer than the template name and ends with `/` followed by the name, in both branches |
| `TemplateLocationMixin.TemplateLocationIsJoinedSegments` | app/views/mixin.py:31 | the template location is all namespace segments joined with `/` |
| `TemplateLocationMixin.BaseLocationSegments` | app/views/mixin.py:30-42 | with `k` segments (`k` is the number of `:` plus one), the base location is the prefix of the template location as long as the first two segments and one `/` when `k >= 2`, and as long as the namespace when `k == 1`: the template location cut just before the `/` that replaced the namespace's second `:` |
| `TemplateLocationMixin.ShortNamespaceBaseIsTemplateLocation` | app/views/mixin.py:30-42 | a namespace of at most two segments has equal base and template locations |
| `TemplateLocationMixin.FewSeparatorsBaseIsTemplateLocation` | app/views/mixin.py:30-42 | a namespace with at most one `:` has equal base and template locations |
| `TemplateLocationMixin.LongNamespaceBaseIsShorter` | app/views/mixin.py:30-42 | a namespace of three or more segments has a base location strictly shorter than, so different from, its template location (the converse of the two lemmas above) |
| `TemplateLocationMixin.BaseLocationShape` | app/views/mixin.py:42 | for a namespace without `/`: the base location holds one `/` if the namespace has a `:` and none otherwise, and splits at `/` into the first two namespace segments |
| `TemplateLocationMixin.OverrideIgnoresNamespace` | app/views/mixin.py:53-54 | with `template_location` set, the path is `template_location + "/" + template_name` whatever the namespace |
| `TemplateLocationMixin.DerivedTemplatePath` | app/views/mixin.py:55-56 | with `template_location` `None` or `""`, the path is the template location, `/` and the name, that is all namespace segments and the name joined with `/` |
| `TemplateLocationMixin.BloggerProfileSegments` | app/views/mixin.py:27-28 | for that one namespace: `app:blogger:profile` has the segments `app`, `blogger`, `profile` |
| `TemplateLocationMixin.BloggerProfileLocations` | app/views/mixin.py:26-42 | `app:blogger:profile` has template location `app/blogger/profile` and base location `app/blogger` |
| `TemplateLocationMixin.BloggerProfileTemplates` | app/views/mixin.py:53-56 | for `app:blogger:profile` the path is `app/blogger/profile/<name>` with no override or `""`, and `custom/loc/<name>` with the override `custom/loc` |

## Left out

- `get_namespace` (app/views/mixin.py:9-17): it asks the framework's URL resolver for the namespace of the current request's path; the resolver is foreign code, so the namespace is a parameter.
- The inheritance from the framework's `TemplateResponseMixin` and the rendering of templates: framework machinery the mixin does not define.
- `template_name` is taken to be a string; how an f-string formats another value (such as `None`) is Python's `str()`, not this code. Likewise `template_location` is modelled as an optional string, the only kinds of value the mixin is written for.
- `str.replace` and `str.split` are modelled only for the one-character arguments the mixin passes (`":"` and `"/"`), not for arbitrary substrings.
