/** The cache key of a request: a text built from its parameters in order, hashed, with a
    namespace in front. */
module CacheKey {
  import opened Options
  import opened Sequences

  /** One keyword argument, with `str(value)`; `None` is Python's None. */
  datatype Kwarg = Kwarg(name: string, value: Option<string>)

  /** A parameter that enters the key text. */
  datatype Param = Param(name: string, value: string)

  /** The parameter lists the key depends on, and the feature flag for provider-specific
      optional parameters. */
  datatype ParamRules = ParamRules(api: set<string>, litellm: set<string>, providerSpecific: bool)

  predicate Enters(rules: ParamRules, name: string) {
    name in rules.api || (name !in rules.litellm && rules.providerSpecific)
  }

  /** The parameters of a request that enter its key text, in order. */
  function Selected(rules: ParamRules, kwargs: seq<Kwarg>): seq<Param> {
    if kwargs == [] then []
    else
      var rest := Selected(rules, kwargs[1..]);
      if Enters(rules, kwargs[0].name) && kwargs[0].value.Some?
      then [Param(kwargs[0].name, kwargs[0].value.value)] + rest
      else rest
  }

  function ParamText(p: Param): string {
    p.name + ": " + p.value
  }

  function KeyText(params: seq<Param>): string {
    if params == [] then "" else ParamText(params[0]) + KeyText(params[1..])
  }

  lemma {:induction false} SelectedAppend(rules: ParamRules, a: seq<Kwarg>, b: seq<Kwarg>)
    ensures Selected(rules, a + b) == Selected(rules, a) + Selected(rules, b)
  {
    if a == [] {
      assert a + b == b;
    } else {
      assert (a + b)[1..] == a[1..] + b;
      SelectedAppend(rules, a[1..], b);
    }
  }

  lemma {:induction false} KeyTextAppend(a: seq<Param>, b: seq<Param>)
    ensures KeyText(a + b) == KeyText(a) + KeyText(b)
  {
    if a == [] {
      assert a + b == b;
    } else {
      assert (a + b)[1..] == a[1..] + b;
      KeyTextAppend(a[1..], b);
    }
  }

  lemma SingleText(p: Param)
    ensures KeyText([p]) == ParamText(p)
  {
    assert [p][1..] == [];
  }

  lemma OneMore(rules: ParamRules, kwargs: seq<Kwarg>, i: nat)
    requires i < |kwargs|
    ensures KeyText(Selected(rules, kwargs[..i + 1]))
         == KeyText(Selected(rules, kwargs[..i])) + KeyText(Selected(rules, [kwargs[i]]))
  {
    assert kwargs[..i + 1] == kwargs[..i] + [kwargs[i]];
    SelectedAppend(rules, kwargs[..i], [kwargs[i]]);
    KeyTextAppend(Selected(rules, kwargs[..i]), Selected(rules, [kwargs[i]]));
  }

  /** The text of a request. */
  function RequestText(rules: ParamRules, kwargs: seq<Kwarg>): string {
    KeyText(Selected(rules, kwargs))
  }

  /** The loop of get_cache_key that builds the text. */
  method BuildKeyText(rules: ParamRules, kwargs: seq<Kwarg>) returns (cacheKey: string)
    ensures cacheKey == RequestText(rules, kwargs)
  {
    cacheKey := "";
    for i := 0 to |kwargs|
      invariant cacheKey == KeyText(Selected(rules, kwargs[..i]))
    {
      OneMore(rules, kwargs, i);
      var kwarg := kwargs[i];
      if kwarg.name in rules.api {
        if kwarg.value.Some? {
          cacheKey := cacheKey + ParamText(Param(kwarg.name, kwarg.value.value));
        }
      } else if kwarg.name !in rules.litellm {
        if rules.providerSpecific {
          if kwarg.value.None? {
            continue;
          }
          cacheKey := cacheKey + ParamText(Param(kwarg.name, kwarg.value.value));
        }
      }
    }
    assert kwargs[..|kwargs|] == kwargs;
  }

  lemma TextOfThree(rules: ParamRules, front: seq<Kwarg>, kwarg: Kwarg, back: seq<Kwarg>)
    ensures RequestText(rules, front + [kwarg] + back)
         == RequestText(rules, front) + KeyText(Selected(rules, [kwarg])) + RequestText(rules, back)
  {
    SelectedAppend(rules, front + [kwarg], back);
    SelectedAppend(rules, front, [kwarg]);
    KeyTextAppend(Selected(rules, front + [kwarg]), Selected(rules, back));
    KeyTextAppend(Selected(rules, front), Selected(rules, [kwarg]));
  }

  lemma TextOfOne(rules: ParamRules, kwarg: Kwarg)
    ensures KeyText(Selected(rules, [kwarg]))
         == if Enters(rules, kwarg.name) && kwarg.value.Some?
            then kwarg.name + ": " + kwarg.value.value else ""
  {
    assert [kwarg][1..] == [];
    if Enters(rules, kwarg.name) && kwarg.value.Some? {
      SingleText(Param(kwarg.name, kwarg.value.value));
    }
  }

  /** What each parameter contributes, wherever it stands among the others: an API parameter its
      name and value; one that is in neither list the same, exactly if provider-specific
      parameters count; a parameter of this library alone, and any that is None, nothing. */
  lemma ParameterText(rules: ParamRules, front: seq<Kwarg>, kwarg: Kwarg, back: seq<Kwarg>)
    ensures var text := RequestText(rules, front + [kwarg] + back);
      var without := RequestText(rules, front) + RequestText(rules, back);
      && (kwarg.value.None? ==> text == without)
      && (kwarg.name in rules.litellm && kwarg.name !in rules.api ==> text == without)
      && (kwarg.name !in rules.litellm && kwarg.name !in rules.api && !rules.providerSpecific ==> text == without)
      && (kwarg.value.Some?
          && (kwarg.name in rules.api || (kwarg.name !in rules.litellm && rules.providerSpecific)) ==>
            text == RequestText(rules, front) + (kwarg.name + ": " + kwarg.value.value) + RequestText(rules, back))
  {
    TextOfThree(rules, front, kwarg, back);
    TextOfOne(rules, kwarg);
    assert RequestText(rules, front) + "" == RequestText(rules, front);
  }

  lemma SameAround(head: string, name: string, v: string, w: string, tail: string)
    ensures head + (name + ": " + v) + tail == head + (name + ": " + w) + tail <==> v == w
  {
    if head + (name + ": " + v) + tail == head + (name + ": " + w) + tail {
      var x, y := head + (name + ": " + v) + tail, head + (name + ": " + w) + tail;
      var i := |head| + |name| + 2;
      assert |v| == |w|;
      assert x[i..i + |v|] == v && y[i..i + |w|] == w;
    }
  }

  /** Two requests that differ in one parameter have different texts, for every API parameter;
      for every parameter in neither list exactly if provider-specific parameters count; and
      never for a parameter of this library alone. */
  lemma ParameterReachesText(rules: ParamRules, front: seq<Kwarg>, name: string, v: string, w: string, back: seq<Kwarg>)
    ensures var x := RequestText(rules, front + [Kwarg(name, Some(v))] + back);
      var y := RequestText(rules, front + [Kwarg(name, Some(w))] + back);
      && (name in rules.api ==> (x == y <==> v == w))
      && (name !in rules.api && name !in rules.litellm ==> (x == y <==> v == w || !rules.providerSpecific))
      && (name !in rules.api && name in rules.litellm ==> x == y)
  {
    ParameterText(rules, front, Kwarg(name, Some(v)), back);
    ParameterText(rules, front, Kwarg(name, Some(w)), back);
    SameAround(RequestText(rules, front), name, v, w, RequestText(rules, back));
  }

  // ---------- the value of the model parameter ----------

  /** What the key takes from the request's metadata; "" is a missing or empty string. */
  datatype Metadata = Metadata(modelGroup: string, cachingGroups: seq<seq<string>>)

  function FirstGroupWith(groups: seq<seq<string>>, model: string): Option<seq<string>> {
    if groups == [] then None
    else if model in groups[0] then Some(groups[0])
    else FirstGroupWith(groups[1..], model)
  }

  /** The caching group, else the model group, else the model itself. `groupText` is Python's
      `str` of a list. */
  function ModelParamValue(metadata: Metadata, litellmModelGroup: string, model: string,
                           groupText: seq<string> -> string): string {
    var modelGroup := if metadata.modelGroup != "" then metadata.modelGroup else litellmModelGroup;
    var group := if modelGroup == "" then None else FirstGroupWith(metadata.cachingGroups, modelGroup);
    if group.Some? && groupText(group.value) != "" then groupText(group.value)
    else if modelGroup != "" then modelGroup
    else model
  }

  /** The model part of a key, source by source: the first caching group that holds the model
      group, and is not written as the empty text; else the model group, the request's own before
      that of its parameters; else the model. */
  lemma ModelPartPrecedence(groups: seq<seq<string>>, own: string, outer: string, model: string,
                            groupText: seq<string> -> string)
    ensures var value := ModelParamValue(Metadata(own, groups), outer, model, groupText);
      var modelGroup := if own != "" then own else outer;
      && (modelGroup == "" ==> value == model)
      && (modelGroup != "" && (forall g :: g in groups ==> modelGroup !in g) ==> value == modelGroup)
      && (forall i ::
            0 <= i < |groups| && modelGroup != "" && modelGroup in groups[i]
            && (forall j :: 0 <= j < i ==> modelGroup !in groups[j])
            ==> value == if groupText(groups[i]) != "" then groupText(groups[i]) else modelGroup)
  {
    var modelGroup := if own != "" then own else outer;
    if forall g :: g in groups ==> modelGroup !in g {
      NoGroup(groups, modelGroup);
    }
    forall i | 0 <= i < |groups| && modelGroup in groups[i] && (forall j :: 0 <= j < i ==> modelGroup !in groups[j])
      ensures FirstGroupWith(groups, modelGroup) == Some(groups[i])
    {
      FirstGroup(groups, i, modelGroup);
    }
  }

  lemma {:induction false} NoGroup(groups: seq<seq<string>>, model: string)
    requires forall g :: g in groups ==> model !in g
    ensures FirstGroupWith(groups, model) == None
  {
    if groups != [] {
      assert groups[0] in groups;
      NoGroup(groups[1..], model);
    }
  }

  lemma {:induction false} FirstGroup(groups: seq<seq<string>>, i: nat, model: string)
    requires i < |groups| && model in groups[i] && forall j :: 0 <= j < i ==> model !in groups[j]
    ensures FirstGroupWith(groups, model) == Some(groups[i])
  {
    if i > 0 {
      FirstGroup(groups[1..], i - 1, model);
    }
  }

  /** Models whose first caching group is the same one share the model part of their keys,
      so one answers from what the other stored. */
  lemma CachingGroupIsShared(groups: seq<seq<string>>, i: nat, a: string, b: string, modelA: string, modelB: string,
                             groupText: seq<string> -> string)
    requires i < |groups| && a in groups[i] && b in groups[i] && a != "" && b != ""
    requires forall j :: 0 <= j < i ==> a !in groups[j] && b !in groups[j]
    requires groupText(groups[i]) != ""
    ensures ModelParamValue(Metadata(a, groups), "", modelA, groupText)
         == ModelParamValue(Metadata("", groups), b, modelB, groupText)
  {
    FirstGroup(groups, i, a);
    FirstGroup(groups, i, b);
  }

  // ---------- reading a key text back ----------

  /** What a parameter's name looks like: no colon in it, no space before it. */
  predicate WellNamed(name: string) {
    ':' !in name && (name != "" ==> name[0] != ' ')
  }

  /** A request's parameters: keyword arguments, so no name twice. */
  ghost predicate Request(names: set<string>, params: seq<Param>) {
    params == [] || (params[0].name in names && Request(names - {params[0].name}, params[1..]))
  }

  /** The text reads `name: ` with its colon at `c`. */
  predicate EndsAt(text: string, c: nat, name: string) {
    |name| <= c && c + 1 < |text| && text[c] == ':' && text[c + 1] == ' ' && text[c - |name|..c] == name
  }

  /** The value mentions none of the names: it nowhere reads `name: `. */
  ghost predicate Silent(value: string, names: set<string>) {
    forall c: nat, n :: n in names ==> !EndsAt(value, c, n)
  }

  /** No value mentions a name that the request has not used by then. */
  ghost predicate Clean(names: set<string>, params: seq<Param>) {
    params == [] ||
    (Silent(params[0].value, names - {params[0].name}) && Clean(names - {params[0].name}, params[1..]))
  }

  predicate Suffix(p: string, q: string) {
    |p| <= |q| && q[|q| - |p|..] == p
  }

  /** Of the names, none longer than `name` could be read after this value in its place. */
  ghost predicate Longest(names: set<string>, value: string, name: string) {
    forall n :: n in names && Suffix(n, value + name) ==> |n| <= |name|
  }

  /** After a name: the value mentions no unused name, and no longer unused name could be read
      in place of the next parameter's. */
  ghost predicate CanonicalTail(names: set<string>, value: string, params: seq<Param>)
    decreases params
  {
    && Silent(value, names)
    && (params != [] ==>
          && Longest(names, value, params[0].name)
          && CanonicalTail(names - {params[0].name}, params[0].value, params[1..]))
  }

  /** A request that is read back from its text. */
  ghost predicate Canonical(names: set<string>, params: seq<Param>) {
    params == [] || CanonicalTail(names - {params[0].name}, params[0].value, params[1..])
  }

  /** Three different names, one of them a suffix of another. */
  ghost predicate Collides(names: set<string>) {
    exists a, p, q :: a in names && p in names && q in names && a != p && a != q && p != q && Suffix(p, q)
  }

  ghost predicate Decodable(names: set<string>) {
    forall x, y ::
      Request(names, x) && Request(names, y) && Clean(names, x) && Clean(names, y) && KeyText(x) == KeyText(y)
      ==> x == y
  }

  /** What follows the name of the first parameter, and the colon and space. */
  function AfterName(params: seq<Param>): string
    requires params != []
  {
    params[0].value + KeyText(params[1..])
  }

  lemma HeadText(v: string, x: seq<Param>)
    requires x != []
    ensures v + KeyText(x) == (v + x[0].name) + (": " + AfterName(x))
  {
    var n, r := x[0].name, KeyText(x[1..]);
    assert KeyText(x) == n + ": " + x[0].value + r;
    assert n + ": " + x[0].value + r == n + (": " + (x[0].value + r));
    ConcatAssociates(v, n, ": " + (x[0].value + r));
  }

  /** The text starts with a value and then names a parameter. */
  predicate Names(text: string, value: string, name: string) {
    var c := |value| + |name|;
    c + 1 < |text| && text[..c] == value + name && text[c] == ':' && text[c + 1] == ' '
  }

  /** Where the parts of a value and the parameters after it lie. */
  lemma Layout(v: string, x: seq<Param>)
    requires x != []
    ensures Names(v + KeyText(x), v, x[0].name)
    ensures (v + KeyText(x))[|v| + |x[0].name| + 2..] == AfterName(x)
  {
    HeadText(v, x);
    var head, tail := v + x[0].name, ": " + AfterName(x);
    assert (head + tail)[..|head|] == head;
    assert (head + tail)[|head|] == tail[0] && (head + tail)[|head| + 1] == tail[1];
    assert (head + tail)[|head| + 2..] == tail[2..] == AfterName(x);
  }

  lemma CharsOf(t: string, w: string, n: string)
    requires |w| + |n| <= |t| && t[..|w| + |n|] == w + n
    ensures forall i :: 0 <= i < |w| ==> t[i] == w[i]
    ensures forall i :: 0 <= i < |n| ==> t[|w| + i] == n[i]
  {
    assert forall i :: 0 <= i < |w| + |n| ==> t[i] == (w + n)[i];
  }

  /** Of two names that a text reads after two values, the later one's value mentions the
      earlier one. */
  lemma EarlierInText(t: string, v: string, m: string, w: string, n: string)
    requires Names(t, v, m) && Names(t, w, n) && |v| + |m| < |w| + |n| && WellNamed(n)
    ensures EndsAt(w, |v| + |m|, m)
  {
    var c := |v| + |m|;
    CharsOf(t, v, m);
    CharsOf(t, w, n);
    assert forall i :: |w| <= i < |w| + |n| ==> t[i] == n[i - |w|];
    assert n != "" ==> t[|w|] == n[0];
    assert w[|v|..c] == m;
  }

  /** If the first text names its next parameter before the second one does, then the second
      one's value mentions that name. */
  lemma EarlierName(v: string, x: seq<Param>, w: string, y: seq<Param>)
    requires x != [] && y != [] && WellNamed(y[0].name) && |v| + |x[0].name| < |w| + |y[0].name|
    requires v + KeyText(x) == w + KeyText(y)
    ensures EndsAt(w, |v| + |x[0].name|, x[0].name)
  {
    Layout(v, x);
    Layout(w, y);
    EarlierInText(v + KeyText(x), v, x[0].name, w, y[0].name);
  }

  lemma LastName(v: string, x: seq<Param>)
    requires x != []
    ensures EndsAt(v + KeyText(x), |v| + |x[0].name|, x[0].name)
  {
    Layout(v, x);
    var t, c := v + KeyText(x), |v| + |x[0].name|;
    assert t[|v|..c] == t[..c][|v|..] == x[0].name;
  }

  /** Of two canonical readings that name their next parameters in the same place, neither name
      is longer. */
  lemma SameName(names: set<string>, v: string, p: string, w: string, q: string)
    requires v + p == w + q && p in names && q in names
    requires Longest(names, v, p) && Longest(names, w, q)
    ensures p == q && v == w
  {
    assert (v + p)[|v|..] == p && (w + q)[|w|..] == q;
    assert Suffix(q, v + p) && Suffix(p, w + q);
    assert |p| == |q| && |v| == |w|;
    assert (v + p)[..|v|] == v && (w + q)[..|w|] == w;
  }

  lemma SamePlace(names: set<string>, v: string, x: seq<Param>, w: string, y: seq<Param>)
    requires x != [] && y != [] && x[0].name in names && y[0].name in names
    requires Longest(names, v, x[0].name) && Longest(names, w, y[0].name)
    requires |v| + |x[0].name| == |w| + |y[0].name| && v + KeyText(x) == w + KeyText(y)
    ensures x[0].name == y[0].name && v == w && AfterName(x) == AfterName(y)
  {
    Layout(v, x);
    Layout(w, y);
    SameName(names, v, x[0].name, w, y[0].name);
  }

  /** After a name, a text can be read in one canonical way only. */
  lemma {:induction false} TailDecodes(names: set<string>, v: string, x: seq<Param>, w: string, y: seq<Param>)
    requires forall n :: n in names ==> WellNamed(n)
    requires Request(names, x) && CanonicalTail(names, v, x)
    requires Request(names, y) && CanonicalTail(names, w, y)
    requires v + KeyText(x) == w + KeyText(y)
    ensures v == w && x == y
    decreases |x|
  {
    if x == [] || y == [] {
      assert v + "" == v && w + "" == w;
      if x != [] { LastName(v, x); }
      if y != [] { LastName(w, y); }
    } else if |w| + |y[0].name| < |v| + |x[0].name| {
      EarlierName(w, y, v, x);
    } else if |v| + |x[0].name| < |w| + |y[0].name| {
      EarlierName(v, x, w, y);
    } else {
      SamePlace(names, v, x, w, y);
      TailDecodes(names - {x[0].name}, x[0].value, x[1..], y[0].value, y[1..]);
      assert x == [x[0]] + x[1..] && y == [y[0]] + y[1..];
    }
  }

  lemma FirstName(t: string, n: string, m: string)
    requires Names(t, "", n) && Names(t, "", m) && ':' !in n && ':' !in m
    ensures n == m
  {
    assert t[..|n|] == "" + n == n && t[..|m|] == "" + m == m;
    NotLonger(t, n, m);
    NotLonger(t, m, n);
  }

  lemma NotLonger(t: string, n: string, m: string)
    requires |n| < |t| && t[|n|] == ':' && |m| <= |t| && t[..|m|] == m && ':' !in m
    ensures |m| <= |n|
  {
    assert forall i :: 0 <= i < |m| ==> m[i] == t[i];
  }

  lemma SameHead(x: seq<Param>, y: seq<Param>)
    requires x != [] && y != [] && KeyText(x) == KeyText(y)
    requires WellNamed(x[0].name) && WellNamed(y[0].name)
    ensures x[0].name == y[0].name && AfterName(x) == AfterName(y)
  {
    Layout("", x);
    Layout("", y);
    assert "" + KeyText(x) == KeyText(x);
    FirstName("" + KeyText(x), x[0].name, y[0].name);
  }

  /** A key text has one canonical reading at most: for all names and values. */
  lemma DecodeUnique(names: set<string>, x: seq<Param>, y: seq<Param>)
    requires forall n :: n in names ==> WellNamed(n)
    requires Request(names, x) && Canonical(names, x)
    requires Request(names, y) && Canonical(names, y)
    requires KeyText(x) == KeyText(y)
    ensures x == y
  {
    if x != [] && y != [] {
      SameHead(x, y);
      TailDecodes(names - {x[0].name}, x[0].value, x[1..], y[0].value, y[1..]);
      assert x == [x[0]] + x[1..] && y == [y[0]] + y[1..];
    }
  }

  ghost predicate MentionedAt(text: string, c: nat, names: set<string>) {
    exists n :: n in names && EndsAt(text, c, n)
  }

  /** The first colon, from `c` on, that ends a mention of one of the names. */
  ghost function FirstMention(text: string, c: nat, names: set<string>): (d: nat)
    requires c <= |text|
    ensures c <= d <= |text| && (d < |text| ==> MentionedAt(text, d, names))
    ensures forall e :: c <= e < d ==> !MentionedAt(text, e, names)
    decreases |text| - c
  {
    if c == |text| || MentionedAt(text, c, names) then c else FirstMention(text, c + 1, names)
  }

  /** The longest of the names that end at a colon. */
  ghost function LongestMention(text: string, c: nat, names: set<string>): (n: string)
    requires MentionedAt(text, c, names)
    ensures n in names && EndsAt(text, c, n) && forall m :: m in names && EndsAt(text, c, m) ==> |m| <= |n|
    decreases names
  {
    var n :| n in names && EndsAt(text, c, n);
    if m :| m in names && EndsAt(text, c, m) && |m| > |n| then
      assert m in names - {n};
      LongestMention(text, c, names - {n})
    else n
  }

  /** The reading that starts a parameter wherever an unused name is mentioned. */
  ghost function Reading(names: set<string>, name: string, text: string): (x: seq<Param>)
    ensures x != [] && x[0].name == name
    decreases |text|
  {
    var c := FirstMention(text, 0, names - {name});
    if c == |text| then [Param(name, text)]
    else
      var next := LongestMention(text, c, names - {name});
      [Param(name, text[..c - |next|])] + Reading(names - {name}, next, text[c + 2..])
  }

  lemma PieceIsSilent(text: string, c: nat, k: nat, names: set<string>)
    requires k <= c < |text| && forall d: nat :: d < c ==> !MentionedAt(text, d, names)
    ensures Silent(text[..k], names)
  {
    forall d: nat, n | n in names && EndsAt(text[..k], d, n)
      ensures false
    {
      assert text[..k][d - |n|..d] == text[d - |n|..d];
      assert MentionedAt(text, d, names);
    }
  }

  lemma WholeIsSilent(text: string, names: set<string>)
    requires FirstMention(text, 0, names) == |text|
    ensures Silent(text, names)
  {
    assert forall d: nat, n :: n in names && EndsAt(text, d, n) ==> MentionedAt(text, d, names);
  }

  lemma SplitText(text: string, c: nat, n: string)
    requires EndsAt(text, c, n)
    ensures text == text[..c - |n|] + (n + ": " + text[c + 2..])
  {
    assert text[c..c + 2] == ": ";
    assert text == text[..c - |n|] + text[c - |n|..c] + text[c..c + 2] + text[c + 2..];
  }

  lemma RequestCons(names: set<string>, p: Param, rest: seq<Param>)
    requires p.name in names && Request(names - {p.name}, rest) && CanonicalTail(names - {p.name}, p.value, rest)
    ensures Request(names, [p] + rest) && Canonical(names, [p] + rest)
    ensures KeyText([p] + rest) == p.name + ": " + (p.value + KeyText(rest))
  {
    var x := [p] + rest;
    assert x[0] == p && x[1..] == rest;
    assert (p.name + ": " + p.value) + KeyText(rest) == p.name + ": " + (p.value + KeyText(rest));
  }

  lemma NoLongerName(text: string, c: nat, next: string, names: set<string>)
    requires EndsAt(text, c, next) && forall m :: m in names && EndsAt(text, c, m) ==> |m| <= |next|
    ensures Longest(names, text[..c - |next|], next)
  {
    assert text[..c - |next|] + next == text[..c];
    forall n | n in names && Suffix(n, text[..c]) ensures |n| <= |next| {
      assert text[..c][c - |n|..] == text[c - |n|..c];
    }
  }

  lemma {:induction false} ReadingIsCanonical(names: set<string>, name: string, text: string)
    requires name in names
    ensures var x := Reading(names, name, text);
      Request(names, x) && Canonical(names, x) && KeyText(x) == name + ": " + text
    decreases |text|
  {
    var rest, c := names - {name}, FirstMention(text, 0, names - {name});
    if c == |text| {
      WholeIsSilent(text, rest);
      RequestCons(names, Param(name, text), []);
      assert text + "" == text;
      assert [Param(name, text)] + [] == [Param(name, text)];
    } else {
      var next := LongestMention(text, c, rest);
      var after := Reading(rest, next, text[c + 2..]);
      ReadingIsCanonical(rest, next, text[c + 2..]);
      PieceIsSilent(text, c, c - |next|, rest);
      NoLongerName(text, c, next, rest);
      RequestCons(names, Param(name, text[..c - |next|]), after);
      SplitText(text, c, next);
    }
  }

  /** Every key text has exactly one canonical reading; a request is recovered from its text if
      and only if it is that reading: none of its values mentions a name it has not used by
      then, and none ends in what makes the next name a longer unused one. */
  lemma OneCanonicalReading(names: set<string>, x: seq<Param>) returns (reading: seq<Param>)
    requires Request(names, x) && forall n :: n in names ==> WellNamed(n)
    ensures Request(names, reading) && Canonical(names, reading) && KeyText(reading) == KeyText(x)
    ensures reading == x <==> Canonical(names, x)
    ensures forall y :: Request(names, y) && Canonical(names, y) && KeyText(y) == KeyText(x) ==> y == reading
  {
    if x == [] {
      reading := [];
    } else {
      reading := Reading(names, x[0].name, AfterName(x));
      ReadingIsCanonical(names, x[0].name, AfterName(x));
      assert KeyText(x) == x[0].name + ": " + AfterName(x);
    }
    forall y | Request(names, y) && Canonical(names, y) && KeyText(y) == KeyText(x)
      ensures y == reading
    {
      DecodeUnique(names, y, reading);
    }
  }

  // ---------- collisions ----------

  lemma TextOfTwo(front: seq<Param>, p: Param, q: Param, back: seq<Param>)
    ensures KeyText(front + [p, q] + back) == KeyText(front) + (ParamText(p) + ParamText(q)) + KeyText(back)
  {
    KeyTextAppend(front + [p, q], back);
    KeyTextAppend(front, [p, q]);
    KeyTextAppend([p], [q]);
    SingleText(p);
    SingleText(q);
    assert [p, q] == [p] + [q];
  }

  /** A name that is a suffix of another collides with it: what ends the value before the
      one starts the other, whatever the values and the parameters around them are. */
  lemma SuffixesCollide(front: seq<Param>, a: string, s: string, p: string, q: string, t: string, back: seq<Param>)
    requires Suffix(p, q)
    ensures KeyText(front + [Param(a, s + q[..|q| - |p|]), Param(p, t)] + back)
         == KeyText(front + [Param(a, s), Param(q, t)] + back)
  {
    var w := q[..|q| - |p|];
    assert q == w + p;
    TextOfTwo(front, Param(a, s + w), Param(p, t), back);
    TextOfTwo(front, Param(a, s), Param(q, t), back);
    MoveBoundary(a, s, w, p, t);
  }

  lemma MoveBoundary(a: string, s: string, w: string, p: string, t: string)
    ensures ParamText(Param(a, s + w)) + ParamText(Param(p, t)) == ParamText(Param(a, s)) + ParamText(Param(w + p, t))
  {
    assert (a + ": " + (s + w)) + (p + ": " + t) == a + ": " + s + w + p + ": " + t;
    assert (a + ": " + s) + (w + p + ": " + t) == a + ": " + s + w + p + ": " + t;
  }

  /** A value that mentions another name collides with the request that has this name as a
      parameter. */
  lemma MentionsCollide(front: seq<Param>, a: string, s: string, n: string, t: string, back: seq<Param>)
    ensures KeyText(front + [Param(a, s + n + ": " + t)] + back) == KeyText(front + [Param(a, s), Param(n, t)] + back)
  {
    TextAround(front, a, s + n + ": " + t, back);
    TextOfTwo(front, Param(a, s), Param(n, t), back);
    assert (a + ": ") + (s + n + ": " + t) == (a + ": " + s) + (n + ": " + t);
    ConcatAssociates(KeyText(front), a + ": ", s + n + ": " + t);
  }

  lemma ColonFreeIsSilent(value: string, names: set<string>)
    requires ':' !in value
    ensures Silent(value, names)
  {
  }

  lemma CollisionWitness(names: set<string>, a: string, p: string, q: string)
    requires a in names && p in names && q in names && a != p && a != q && p != q
    requires Suffix(p, q) && ':' !in q
    ensures !Decodable(names)
  {
    var w := q[..|q| - |p|];
    var x, y := [Param(a, w), Param(p, "")], [Param(a, ""), Param(q, "")];
    assert x[1..] == [Param(p, "")] && x[1..][1..] == [] && y[1..] == [Param(q, "")] && y[1..][1..] == [];
    assert Clean(names - {a}, x[1..]) && Clean(names - {a}, y[1..]);
    ColonFreeIsSilent(w, names - {a});
    SuffixesCollide([], a, "", p, q, "", []);
    assert "" + w == w;
    assert [] + x + [] == x && [] + y + [] == y;
    assert Request(names - {a}, x[1..]) && Request(names - {a}, y[1..]);
    assert KeyText(x) == KeyText(y);
    assert x[0].value == w && Silent(y[0].value, names - {a});
    assert Request(names, x) && Request(names, y) && Clean(names, x) && Clean(names, y);
    assert x[1].name != y[1].name;
  }

  lemma ShorterSuffix(value: string, name: string, n: string)
    requires Suffix(n, value + name)
    ensures Suffix(name, n) || Suffix(n, name)
  {
    var t := value + name;
    assert t[|value|..] == name;
    if |n| >= |name| {
      assert n[|n| - |name|..] == t[|value|..];
    } else {
      assert name[|name| - |n|..] == t[|t| - |n|..];
    }
  }

  lemma {:induction false} CleanTailIsCanonical(names: set<string>, value: string, x: seq<Param>)
    requires Request(names, x) && Clean(names, x) && Silent(value, names)
    requires forall p, q :: p in names && q in names && Suffix(p, q) ==> p == q
    ensures CanonicalTail(names, value, x)
    decreases x
  {
    if x != [] {
      var name := x[0].name;
      forall n | n in names && Suffix(n, value + name) ensures |n| <= |name| {
        ShorterSuffix(value, name, n);
      }
      CleanTailIsCanonical(names - {name}, x[0].value, x[1..]);
    }
  }

  lemma CleanIsCanonical(names: set<string>, x: seq<Param>)
    requires !Collides(names) && Request(names, x) && Clean(names, x)
    ensures Canonical(names, x)
  {
    if x != [] {
      CleanTailIsCanonical(names - {x[0].name}, x[0].value, x[1..]);
    }
  }

  /** Clean requests are determined by their key texts exactly when no parameter name is a
      suffix of another (or there are too few names for it to matter). */
  lemma DecodableIffNoCollision(names: set<string>)
    requires forall n :: n in names ==> WellNamed(n)
    ensures Decodable(names) <==> !Collides(names)
  {
    if Collides(names) {
      var a, p, q :| a in names && p in names && q in names && a != p && a != q && p != q && Suffix(p, q);
      CollisionWitness(names, a, p, q);
    } else {
      forall x, y | Request(names, x) && Request(names, y) && Clean(names, x) && Clean(names, y)
                    && KeyText(x) == KeyText(y)
        ensures x == y
      {
        CleanIsCanonical(names, x);
        CleanIsCanonical(names, y);
        DecodeUnique(names, x, y);
      }
    }
  }

  /** The chat parameters do collide: `logprobs` is a suffix of `top_logprobs`, so a model
      whose name ends in "top_" is taken for another one, whatever the values are. */
  lemma ChatParametersCollide(model: string, value: string, names: set<string>)
    requires {"model", "logprobs", "top_logprobs"} <= names
    ensures Collides(names)
    ensures KeyText([Param("model", model + "top_"), Param("logprobs", value)])
         == KeyText([Param("model", model), Param("top_logprobs", value)])
  {
    assert "top_logprobs"[4..] == "logprobs" && "top_logprobs"[..4] == "top_";
    assert Suffix("logprobs", "top_logprobs");
    SuffixesCollide([], "model", model, "logprobs", "top_logprobs", value, []);
    assert "top_logprobs"[..|"top_logprobs"| - |"logprobs"|] == "top_";
    var x := [Param("model", model + "top_"), Param("logprobs", value)];
    var y := [Param("model", model), Param("top_logprobs", value)];
    assert [] + x + [] == x && [] + y + [] == y;
  }

  lemma MiddleDecodes(head: string, v: string, w: string, tail: string)
    requires head + v + tail == head + w + tail
    ensures v == w
  {
    assert |v| == |w|;
    assert (head + v + tail)[|head|..|head| + |v|] == v;
    assert (head + w + tail)[|head|..|head| + |w|] == w;
  }

  lemma TextAround(front: seq<Param>, name: string, v: string, back: seq<Param>)
    ensures KeyText(front + [Param(name, v)] + back) == (KeyText(front) + (name + ": ")) + v + KeyText(back)
  {
    KeyTextAppend(front + [Param(name, v)], back);
    KeyTextAppend(front, [Param(name, v)]);
    SingleText(Param(name, v));
    ConcatAssociates(KeyText(front), name + ": ", v);
  }

  /** Two requests that differ in one value have different texts, whatever the values hold. */
  lemma OneValueDecodes(front: seq<Param>, name: string, v: string, w: string, back: seq<Param>)
    requires KeyText(front + [Param(name, v)] + back) == KeyText(front + [Param(name, w)] + back)
    ensures v == w
  {
    TextAround(front, name, v, back);
    TextAround(front, name, w, back);
    MiddleDecodes(KeyText(front) + (name + ": "), v, w, KeyText(back));
  }

  // ---------- namespaces ----------

  function FirstTruthy(a: string, b: string, c: string): string {
    if a != "" then a else if b != "" then b else c
  }

  /** An empty namespace is no namespace. */
  function AddNamespace(namespace: string, digest: string): string {
    if namespace == "" then digest else namespace + ":" + digest
  }

  /** With digests of one length, a final key determines its namespace and its digest. */
  lemma NamespacedKeysDiffer(m: string, d: string, n: string, e: string)
    requires |d| == |e|
    ensures AddNamespace(m, d) == AddNamespace(n, e) <==> m == n && d == e
  {
    if AddNamespace(m, d) == AddNamespace(n, e) {
      var k := AddNamespace(m, d);
      assert k[|k| - |d|..] == d && k[|k| - |e|..] == e;
      if m != "" { assert k[..|m|] == m; }
      if n != "" { assert k[..|n|] == n; }
    }
  }

  /** Two requests share a final key exactly when they share their namespace and the canonical
      reading of their texts, when the hash does not collide on the two texts. */
  lemma FinalKeyIsExact(hash: string -> string, names: set<string>, m: string, x: seq<Param>, n: string, y: seq<Param>)
    returns (readX: seq<Param>, readY: seq<Param>)
    requires |hash(KeyText(x))| == |hash(KeyText(y))|
    requires hash(KeyText(x)) == hash(KeyText(y)) ==> KeyText(x) == KeyText(y)
    requires Request(names, x) && Request(names, y) && forall a :: a in names ==> WellNamed(a)
    ensures AddNamespace(m, hash(KeyText(x))) == AddNamespace(n, hash(KeyText(y))) <==> m == n && readX == readY
    ensures (readX == x <==> Canonical(names, x)) && (readY == y <==> Canonical(names, y))
  {
    NamespacedKeysDiffer(m, hash(KeyText(x)), n, hash(KeyText(y)));
    readX := OneCanonicalReading(names, x);
    readY := OneCanonicalReading(names, y);
  }
}
