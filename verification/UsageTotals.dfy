/** Combining usage objects, attribute by attribute. */
module UsageTotals {
  import opened Options
  import opened Sequences

  /** An attribute's value: a number, None, or some object. A missing attribute is an absent
      map key. */
  datatype Value = Num(n: real) | Null | Object

  type Attrs = map<string, Value>

  datatype Usage = Usage(plain: Attrs, promptDetails: Option<Attrs>, completionDetails: Option<Attrs>)

  /** What the two details classes hold when created without arguments. */
  datatype Blank = Blank(prompt: Attrs, completion: Attrs)

  function Get(m: Attrs, attr: string): Option<Value> {
    if attr in m then Some(m[attr]) else None
  }

  const NEW_USAGE :=
    Usage(map["prompt_tokens" := Num(0.0), "completion_tokens" := Num(0.0), "total_tokens" := Num(0.0)], None, None)

  // ---------- one attribute ----------

  /** The three groups of attributes are added by three different rules. */
  datatype Rule = Plain | Prompt | Completion

  function NumOr(v: Option<Value>, default: real): real {
    if v.Some? && v.value.Num? then v.value.n else default
  }

  /** Whether the new value is added at all, given the combined one. */
  predicate Adds(rule: Rule, current: Option<Value>, added: Value) {
    match rule
    case Plain => added.Num? && (current.None? || current.value.Num?)
    case Prompt => !added.Object?
    case Completion => added.Num? && !(current.Some? && current.value.Null?)
  }

  function Add(rule: Rule, current: Option<Value>, added: Option<Value>): Option<Value> {
    if added.Some? && Adds(rule, current, added.value)
    then Some(Num(NumOr(current, 0.0) + NumOr(added, 0.0)))
    else current
  }

  function AddAll(rule: Rule, m: Attrs, d: Attrs): (r: Attrs)
    ensures forall a :: Get(r, a) == Add(rule, Get(m, a), Get(d, a))
  {
    map a | a in m.Keys + d.Keys && Add(rule, Get(m, a), Get(d, a)).Some? :: Add(rule, Get(m, a), Get(d, a)).value
  }

  /** The loop over the attributes of one object, in any order. */
  method AddAttributes(rule: Rule, m: Attrs, d: Attrs) returns (r: Attrs)
    ensures r == AddAll(rule, m, d)
  {
    r := m;
    var attrs := d.Keys;
    while attrs != {}
      invariant attrs <= d.Keys
      invariant forall a :: Get(r, a) == if a in attrs then Get(m, a) else Add(rule, Get(m, a), Get(d, a))
      decreases |attrs|
    {
      var attr :| attr in attrs;
      if Adds(rule, Get(r, attr), d[attr]) {
        r := r[attr := Num(NumOr(Get(r, attr), 0.0) + NumOr(Some(d[attr]), 0.0))];
      }
      attrs := attrs - {attr};
    }
    SameAttributes(r, AddAll(rule, m, d));
  }

  lemma SameAttributes(a: Attrs, b: Attrs)
    requires forall attr :: Get(a, attr) == Get(b, attr)
    ensures a == b
  {
    forall attr | attr in a || attr in b ensures attr in a && attr in b && a[attr] == b[attr] {
      assert Get(a, attr) == Get(b, attr);
    }
  }

  // ---------- whole objects ----------

  function AddDetails(rule: Rule, blank: Attrs, current: Option<Attrs>, added: Option<Attrs>): Option<Attrs> {
    if added.None? then current else Some(AddAll(rule, current.GetOr(blank), added.value))
  }

  function Combine1(blank: Blank, acc: Usage, u: Usage): Usage {
    Usage(AddAll(Plain, acc.plain, u.plain),
          AddDetails(Prompt, blank.prompt, acc.promptDetails, u.promptDetails),
          AddDetails(Completion, blank.completion, acc.completionDetails, u.completionDetails))
  }

  function CombineFrom(blank: Blank, acc: Usage, usages: seq<Usage>): Usage
    decreases usages
  {
    if usages == [] then acc else CombineFrom(blank, Combine1(blank, acc, usages[0]), usages[1..])
  }

  method CombineUsageObjects(blank: Blank, usages: seq<Usage>) returns (combined: Usage)
    ensures combined == CombineFrom(blank, NEW_USAGE, usages)
  {
    combined := NEW_USAGE;
    for i := 0 to |usages|
      invariant CombineFrom(blank, combined, usages[i..]) == CombineFrom(blank, NEW_USAGE, usages)
    {
      var usage := usages[i];
      assert usages[i..][0] == usage && usages[i..][1..] == usages[i + 1..];
      var plain := AddAttributes(Plain, combined.plain, usage.plain);
      var prompt, completion := combined.promptDetails, combined.completionDetails;
      if usage.promptDetails.Some? {
        var details := AddAttributes(Prompt, prompt.GetOr(blank.prompt), usage.promptDetails.value);
        prompt := Some(details);
      }
      if usage.completionDetails.Some? {
        var details := AddAttributes(Completion, completion.GetOr(blank.completion), usage.completionDetails.value);
        completion := Some(details);
      }
      combined := Usage(plain, prompt, completion);
    }
    assert usages[|usages|..] == [];
  }

  // ---------- order does not matter ----------

  lemma AddCommutes(rule: Rule, current: Option<Value>, x: Option<Value>, y: Option<Value>)
    ensures Add(rule, Add(rule, current, x), y) == Add(rule, Add(rule, current, y), x)
  {
  }

  lemma AddAllCommutes(rule: Rule, m: Attrs, d: Attrs, e: Attrs)
    ensures AddAll(rule, AddAll(rule, m, d), e) == AddAll(rule, AddAll(rule, m, e), d)
  {
    var de, ed := AddAll(rule, AddAll(rule, m, d), e), AddAll(rule, AddAll(rule, m, e), d);
    forall a ensures Get(de, a) == Get(ed, a) {
      AddCommutes(rule, Get(m, a), Get(d, a), Get(e, a));
    }
    SameAttributes(de, ed);
  }

  lemma DetailsCommute(rule: Rule, blank: Attrs, current: Option<Attrs>, d: Option<Attrs>, e: Option<Attrs>)
    ensures AddDetails(rule, blank, AddDetails(rule, blank, current, d), e)
         == AddDetails(rule, blank, AddDetails(rule, blank, current, e), d)
  {
    if d.Some? && e.Some? {
      AddAllCommutes(rule, current.GetOr(blank), d.value, e.value);
    }
  }

  lemma Combine1Commutes(blank: Blank, acc: Usage, u: Usage, v: Usage)
    ensures Combine1(blank, Combine1(blank, acc, u), v) == Combine1(blank, Combine1(blank, acc, v), u)
  {
    AddAllCommutes(Plain, acc.plain, u.plain, v.plain);
    DetailsCommute(Prompt, blank.prompt, acc.promptDetails, u.promptDetails, v.promptDetails);
    DetailsCommute(Completion, blank.completion, acc.completionDetails, u.completionDetails, v.completionDetails);
  }

  /** Any object of the list may be combined first. */
  lemma {:induction false} CombineAnyFirst(blank: Blank, acc: Usage, usages: seq<Usage>, i: nat)
    requires i < |usages|
    ensures CombineFrom(blank, acc, usages) == CombineFrom(blank, Combine1(blank, acc, usages[i]), Remove(usages, i))
    decreases i
  {
    if i == 0 {
      assert Remove(usages, 0) == usages[1..];
    } else {
      var first, rest := usages[0], usages[1..];
      CombineAnyFirst(blank, Combine1(blank, acc, first), rest, i - 1);
      Combine1Commutes(blank, acc, first, usages[i]);
      assert Remove(usages, i)[0] == first && Remove(usages, i)[1..] == Remove(rest, i - 1);
    }
  }

  /** The combined usage does not depend on the order of the list. */
  lemma {:induction false} CombineIgnoresOrder(blank: Blank, acc: Usage, a: seq<Usage>, b: seq<Usage>)
    requires multiset(a) == multiset(b)
    ensures CombineFrom(blank, acc, a) == CombineFrom(blank, acc, b)
    decreases |a|
  {
    assert |a| == |multiset(a)| == |multiset(b)| == |b|;
    if a != [] {
      assert a[0] in multiset(b);
      var i :| 0 <= i < |b| && b[i] == a[0];
      CombineAnyFirst(blank, acc, b, i);
      RemoveOne(a, 0);
      RemoveOne(b, i);
      assert multiset(Remove(a, 0)) == multiset(a) - multiset{a[0]};
      assert multiset(Remove(b, i)) == multiset(b) - multiset{b[i]};
      assert Remove(a, 0) == a[1..];
      CombineIgnoresOrder(blank, Combine1(blank, acc, a[0]), a[1..], Remove(b, i));
    }
  }

  // ---------- closed form ----------

  function AddGroup(rule: Rule, m: Attrs, group: seq<Attrs>): Attrs
    decreases group
  {
    if group == [] then m else AddGroup(rule, AddAll(rule, m, group[0]), group[1..])
  }

  function AddGroupDetails(rule: Rule, blank: Attrs, current: Option<Attrs>, group: seq<Attrs>): Option<Attrs> {
    if group == [] then current else Some(AddGroup(rule, current.GetOr(blank), group))
  }

  function PlainOf(usages: seq<Usage>): seq<Attrs> {
    if usages == [] then [] else [usages[0].plain] + PlainOf(usages[1..])
  }

  function Present(details: Option<Attrs>): seq<Attrs> {
    if details.Some? then [details.value] else []
  }

  /** The details objects of the usages that have one. */
  function PromptOf(usages: seq<Usage>): seq<Attrs> {
    if usages == [] then [] else Present(usages[0].promptDetails) + PromptOf(usages[1..])
  }

  function CompletionOf(usages: seq<Usage>): seq<Attrs> {
    if usages == [] then [] else Present(usages[0].completionDetails) + CompletionOf(usages[1..])
  }

  lemma DetailsStep(rule: Rule, blank: Attrs, current: Option<Attrs>, d: Option<Attrs>, rest: seq<Attrs>)
    ensures AddGroupDetails(rule, blank, AddDetails(rule, blank, current, d), rest)
         == AddGroupDetails(rule, blank, current, Present(d) + rest)
  {
    if d.Some? {
      var m, group := current.GetOr(blank), Present(d) + rest;
      assert group[0] == d.value && group[1..] == rest;
      assert AddGroup(rule, m, group) == AddGroup(rule, AddAll(rule, m, d.value), rest);
    } else {
      assert [] + rest == rest;
    }
  }

  /** The three groups of attributes are combined independently. */
  lemma {:induction false} GroupsAreIndependent(blank: Blank, acc: Usage, usages: seq<Usage>)
    ensures CombineFrom(blank, acc, usages)
         == Usage(AddGroup(Plain, acc.plain, PlainOf(usages)),
                  AddGroupDetails(Prompt, blank.prompt, acc.promptDetails, PromptOf(usages)),
                  AddGroupDetails(Completion, blank.completion, acc.completionDetails, CompletionOf(usages)))
    decreases usages
  {
    if usages != [] {
      var u, rest := usages[0], usages[1..];
      GroupsAreIndependent(blank, Combine1(blank, acc, u), rest);
      assert PlainOf(usages)[0] == u.plain && PlainOf(usages)[1..] == PlainOf(rest);
      DetailsStep(Prompt, blank.prompt, acc.promptDetails, u.promptDetails, PromptOf(rest));
      DetailsStep(Completion, blank.completion, acc.completionDetails, u.completionDetails, CompletionOf(rest));
    }
  }

  /** One attribute across the objects of a group. */
  function Column(group: seq<Attrs>, attr: string): seq<Option<Value>> {
    if group == [] then [] else [Get(group[0], attr)] + Column(group[1..], attr)
  }

  function AddColumn(rule: Rule, start: Option<Value>, column: seq<Option<Value>>): Option<Value>
    decreases column
  {
    if column == [] then start else AddColumn(rule, Add(rule, start, column[0]), column[1..])
  }

  lemma {:induction false} GroupIsByColumn(rule: Rule, m: Attrs, group: seq<Attrs>, attr: string)
    ensures Get(AddGroup(rule, m, group), attr) == AddColumn(rule, Get(m, attr), Column(group, attr))
    decreases group
  {
    if group != [] {
      GroupIsByColumn(rule, AddAll(rule, m, group[0]), group[1..], attr);
      assert Column(group, attr)[1..] == Column(group[1..], attr);
    }
  }

  /** The sum of the numbers; None counts as 0. */
  function Total(column: seq<Option<Value>>): real {
    if column == [] then 0.0 else NumOr(column[0], 0.0) + Total(column[1..])
  }

  /** Whether some object has the attribute with a value that the rule adds to a number. */
  predicate Carries(rule: Rule, column: seq<Option<Value>>) {
    column != [] && ((column[0].Some? && Adds(rule, Some(Num(0.0)), column[0].value)) || Carries(rule, column[1..]))
  }

  /** A plain attribute or completion detail that starts as a number or missing, and every
      prompt detail, ends up as its start plus its total, once some object carries it. */
  lemma {:induction false} ColumnIsSummed(rule: Rule, start: Option<Value>, column: seq<Option<Value>>)
    requires rule.Prompt? || start.None? || start.value.Num?
    ensures AddColumn(rule, start, column)
         == if Carries(rule, column) then Some(Num(NumOr(start, 0.0) + Total(column))) else start
    ensures !Carries(rule, column) ==> Total(column) == 0.0
    decreases column
  {
    if column != [] {
      ColumnIsSummed(rule, Add(rule, start, column[0]), column[1..]);
    }
  }

  /** A completion detail that starts as None stays None, whatever the usages report. */
  lemma {:induction false} NoneStaysNone(column: seq<Option<Value>>)
    ensures AddColumn(Completion, Some(Null), column) == Some(Null)
  {
    if column != [] {
      NoneStaysNone(column[1..]);
    }
  }

  /** What a declared completion detail comes out as: None if it is declared as None, else
      the declared number and what the usages report. */
  function DetailTotal(declared: Value, column: seq<Option<Value>>): Value
    requires !declared.Object?
  {
    if declared.Null? then Null else Num(declared.n + Total(column))
  }

  lemma DeclaredDetail(blank: Attrs, group: seq<Attrs>, attr: string)
    requires attr in blank && !blank[attr].Object?
    ensures Get(AddGroup(Completion, blank, group), attr) == Some(DetailTotal(blank[attr], Column(group, attr)))
  {
    GroupIsByColumn(Completion, blank, group, attr);
    if blank[attr].Null? {
      NoneStaysNone(Column(group, attr));
    } else {
      ColumnIsSummed(Completion, Some(blank[attr]), Column(group, attr));
    }
  }

  /** A completion detail comes out as the details class declares it: if it declares None,
      combining loses whatever the usages report. */
  lemma CompletionDetailsAreLost(blank: Blank, usages: seq<Usage>, attr: string)
    requires attr in blank.completion && !blank.completion[attr].Object?
    ensures var combined := CombineFrom(blank, NEW_USAGE, usages).completionDetails;
      var column := Column(CompletionOf(usages), attr);
      && (combined.Some? <==> CompletionOf(usages) != [])
      && (combined.Some? ==> Get(combined.value, attr) == Some(DetailTotal(blank.completion[attr], column)))
  {
    GroupsAreIndependent(blank, NEW_USAGE, usages);
    DeclaredDetail(blank.completion, CompletionOf(usages), attr);
  }

  /** Every plain attribute of the combined usage is the total over the list. */
  lemma PlainIsTheTotal(blank: Blank, usages: seq<Usage>, attr: string)
    ensures var column := Column(PlainOf(usages), attr);
      Get(CombineFrom(blank, NEW_USAGE, usages).plain, attr)
      == if Carries(Plain, column) then Some(Num(Total(column))) else Get(NEW_USAGE.plain, attr)
  {
    GroupsAreIndependent(blank, NEW_USAGE, usages);
    GroupIsByColumn(Plain, NEW_USAGE.plain, PlainOf(usages), attr);
    ColumnIsSummed(Plain, Get(NEW_USAGE.plain, attr), Column(PlainOf(usages), attr));
  }

  /** Every prompt detail of the combined usage is the total over the usages with details. */
  lemma PromptIsTheTotal(blank: Blank, usages: seq<Usage>, attr: string)
    requires NumOr(Get(blank.prompt, attr), 0.0) == 0.0
    ensures var combined, column := CombineFrom(blank, NEW_USAGE, usages).promptDetails, Column(PromptOf(usages), attr);
      && (combined.Some? <==> PromptOf(usages) != [])
      && (combined.Some? ==>
            Get(combined.value, attr)
            == if Carries(Prompt, column) then Some(Num(Total(column))) else Get(blank.prompt, attr))
  {
    GroupsAreIndependent(blank, NEW_USAGE, usages);
    GroupIsByColumn(Prompt, blank.prompt, PromptOf(usages), attr);
    ColumnIsSummed(Prompt, Get(blank.prompt, attr), Column(PromptOf(usages), attr));
  }

  lemma {:induction false} TotalOfJoin(a: seq<Attrs>, b: seq<Attrs>, attr: string)
    ensures Total(Column(a + b, attr)) == Total(Column(a, attr)) + Total(Column(b, attr))
  {
    if a == [] {
      assert a + b == b;
    } else {
      TotalOfJoin(a[1..], b, attr);
      assert (a + b)[1..] == a[1..] + b;
      assert Column(a + b, attr)[1..] == Column(a[1..] + b, attr);
      assert Column(a, attr)[1..] == Column(a[1..], attr);
    }
  }

  lemma {:induction false} PlainOfJoin(a: seq<Usage>, b: seq<Usage>)
    ensures PlainOf(a + b) == PlainOf(a) + PlainOf(b)
  {
    if a == [] {
      assert a + b == b;
    } else {
      var joined := a + b;
      assert joined[0] == a[0] && joined[1..] == a[1..] + b;
      PlainOfJoin(a[1..], b);
      ConcatAssociates([a[0].plain], PlainOf(a[1..]), PlainOf(b));
    }
  }

  lemma {:induction false} PromptOfJoin(a: seq<Usage>, b: seq<Usage>)
    ensures PromptOf(a + b) == PromptOf(a) + PromptOf(b)
  {
    if a == [] {
      assert a + b == b;
    } else {
      var joined := a + b;
      assert joined[0] == a[0] && joined[1..] == a[1..] + b;
      PromptOfJoin(a[1..], b);
      ConcatAssociates(Present(a[0].promptDetails), PromptOf(a[1..]), PromptOf(b));
    }
  }

  function PlainNumber(u: Usage, attr: string): real {
    NumOr(Get(u.plain, attr), 0.0)
  }

  function PromptNumber(u: Usage, attr: string): real {
    if u.promptDetails.None? then 0.0 else NumOr(Get(u.promptDetails.value, attr), 0.0)
  }

  /** Combining two lists joined gives the sums of what they give alone. */
  lemma CombineJoined(blank: Blank, a: seq<Usage>, b: seq<Usage>, attr: string)
    requires NumOr(Get(blank.prompt, attr), 0.0) == 0.0
    ensures var x, y := CombineFrom(blank, NEW_USAGE, a), CombineFrom(blank, NEW_USAGE, b);
      var both := CombineFrom(blank, NEW_USAGE, a + b);
      && PlainNumber(both, attr) == PlainNumber(x, attr) + PlainNumber(y, attr)
      && PromptNumber(both, attr) == PromptNumber(x, attr) + PromptNumber(y, attr)
  {
    PlainOfJoin(a, b);
    PromptOfJoin(a, b);
    TotalOfJoin(PlainOf(a), PlainOf(b), attr);
    TotalOfJoin(PromptOf(a), PromptOf(b), attr);
    NumbersAreTotals(blank, a, attr);
    NumbersAreTotals(blank, b, attr);
    NumbersAreTotals(blank, a + b, attr);
  }

  lemma NumbersAreTotals(blank: Blank, usages: seq<Usage>, attr: string)
    requires NumOr(Get(blank.prompt, attr), 0.0) == 0.0
    ensures PlainNumber(CombineFrom(blank, NEW_USAGE, usages), attr) == Total(Column(PlainOf(usages), attr))
    ensures PromptNumber(CombineFrom(blank, NEW_USAGE, usages), attr) == Total(Column(PromptOf(usages), attr))
  {
    PlainIsTheTotal(blank, usages, attr);
    PromptIsTheTotal(blank, usages, attr);
    ColumnIsSummed(Plain, None, Column(PlainOf(usages), attr));
    ColumnIsSummed(Prompt, None, Column(PromptOf(usages), attr));
    assert PromptOf(usages) == [] ==> Column(PromptOf(usages), attr) == [];
  }

  predicate IsNum(m: Attrs, attr: string) {
    attr in m && m[attr].Num?
  }

  /** A usage combined alone keeps its plain numbers; anything else leaves the new object as it is. */
  lemma OnePlainIsItself(blank: Blank, u: Usage, attr: string)
    ensures var c := CombineFrom(blank, NEW_USAGE, [u]);
      && (IsNum(u.plain, attr) ==> attr in c.plain && c.plain[attr] == u.plain[attr])
      && (!IsNum(u.plain, attr) ==> Get(c.plain, attr) == Get(NEW_USAGE.plain, attr))
  {
    CombineOne(blank, u);
    assert Get(Combine1(blank, NEW_USAGE, u).plain, attr) == Add(Plain, Get(NEW_USAGE.plain, attr), Get(u.plain, attr));
  }

  /** A usage combined alone keeps its prompt details, with None as 0. */
  lemma OnePromptIsItself(blank: Blank, u: Usage, attr: string)
    requires NumOr(Get(blank.prompt, attr), 0.0) == 0.0
    ensures var c := CombineFrom(blank, NEW_USAGE, [u]);
      && (c.promptDetails.Some? <==> u.promptDetails.Some?)
      && (u.promptDetails.Some? ==>
            var mine, sum := u.promptDetails.value, c.promptDetails.value;
            && (IsNum(mine, attr) ==> attr in sum && sum[attr] == mine[attr])
            && (attr in mine && mine[attr] == Null ==> attr in sum && sum[attr] == Num(0.0))
            && (attr !in mine ==> Get(sum, attr) == Get(blank.prompt, attr)))
  {
    CombineOne(blank, u);
  }

  /** A usage combined alone keeps its completion details, added to what the class declares, unless
      it declares None; what is not a number leaves the declaration as it is. */
  lemma OneCompletionIsItself(blank: Blank, u: Usage, attr: string)
    requires attr in blank.completion ==> !blank.completion[attr].Object?
    ensures var c := CombineFrom(blank, NEW_USAGE, [u]);
      && (c.completionDetails.Some? <==> u.completionDetails.Some?)
      && (u.completionDetails.Some? ==>
            var mine, sum := u.completionDetails.value, c.completionDetails.value;
            && (IsNum(mine, attr) && attr !in blank.completion ==> attr in sum && sum[attr] == mine[attr])
            && (IsNum(mine, attr) && IsNum(blank.completion, attr) ==>
                  attr in sum && sum[attr] == Num(blank.completion[attr].n + mine[attr].n))
            && (!IsNum(mine, attr) ==> Get(sum, attr) == Get(blank.completion, attr)))
  {
    CombineOne(blank, u);
  }

  lemma CombineOne(blank: Blank, u: Usage)
    ensures CombineFrom(blank, NEW_USAGE, [u]) == Combine1(blank, NEW_USAGE, u)
  {
    assert [u][1..] == [];
  }
}
