/**
 * The prompt builder of index.tsx (generatePrompt): it turns the five optional
 * form selections into the criteria text sent to the completion service.
 */
module PromptBuilder {
  import opened Wrappers

  /** One form submission. Each field is either absent (None) or the submitted text. */
  datatype FormValues = FormValues(
    month: Option<string>,
    audience: Option<string>,
    eventType: Option<string>,
    goal: Option<string>,
    cuisine: Option<string>)

  /** The five form fields, declared in the order the prompt lists them. */
  datatype Field = Month | Audience | EventType | Goal | Cuisine {

    /** The label that introduces the field's line in the prompt. */
    function Label(): string {
      match this
      case Month => "Month/Season"
      case Audience => "Target Audience"
      case EventType => "Event Type"
      case Goal => "Primary Goal"
      case Cuisine => "Cuisine Focus"
    }

    /** Position of the field in the fixed listing order. */
    function Ordinal(): nat {
      match this
      case Month => 0
      case Audience => 1
      case EventType => 2
      case Goal => 3
      case Cuisine => 4
    }

    /** Whether the "any" sentinel suppresses the field; cuisine is only checked for being non-empty. */
    predicate HonoursSentinel() {
      this != Cuisine
    }
  }

  const FieldOrder: seq<Field> := [Month, Audience, EventType, Goal, Cuisine]

  const Header: string := "Based on the following criteria, generate one event idea:\n"
  const Fallback: string := "Generate a creative and profitable event idea suitable for any time of year."
  const Sentinel: string := "any"

  function ValueOf(form: FormValues, field: Field): Option<string> {
    match field
    case Month => form.month
    case Audience => form.audience
    case EventType => form.eventType
    case Goal => form.goal
    case Cuisine => form.cuisine
  }

  /** The form with one field replaced. */
  function With(form: FormValues, field: Field, v: Option<string>): FormValues {
    match field
    case Month => form.(month := v)
    case Audience => form.(audience := v)
    case EventType => form.(eventType := v)
    case Goal => form.(goal := v)
    case Cuisine => form.(cuisine := v)
  }

  /** JavaScript truthiness of a form entry: absent and the empty string are falsy. */
  predicate Truthy(v: Option<string>) {
    v.Some? && v.value != ""
  }

  /** Whether the field contributes a line to the prompt. */
  predicate Listed(form: FormValues, field: Field) {
    var v := ValueOf(form, field);
    Truthy(v) && (field.HonoursSentinel() ==> v.value != Sentinel)
  }

  /**
   * The submission constrains nothing: month, audience, type and goal are each
   * absent, empty or "any", and cuisine is absent or empty.
   */
  predicate Unconstrained(form: FormValues) {
    && (form.month.None? || form.month.value == "" || form.month.value == "any")
    && (form.audience.None? || form.audience.value == "" || form.audience.value == "any")
    && (form.eventType.None? || form.eventType.value == "" || form.eventType.value == "any")
    && (form.goal.None? || form.goal.value == "" || form.goal.value == "any")
    && (form.cuisine.None? || form.cuisine.value == "")
  }

  /** One line of the prompt: a field and the submitted value it lists. */
  datatype Criterion = Criterion(field: Field, value: string)

  /** The contribution of one field: its line's criterion, or nothing. */
  function Contribution(form: FormValues, f: Field): seq<Criterion> {
    if Listed(form, f) then [Criterion(f, ValueOf(form, f).value)] else []
  }

  /** The criteria for the given fields, in the order the fields are given. */
  function CriteriaOf(fields: seq<Field>, form: FormValues): seq<Criterion> {
    if fields == [] then []
    else Contribution(form, fields[0]) + CriteriaOf(fields[1..], form)
  }

  function Criteria(form: FormValues): seq<Criterion> {
    CriteriaOf(FieldOrder, form)
  }

  function Line(c: Criterion): string {
    "- " + c.field.Label() + ": " + c.value + "\n"
  }

  function Lines(cs: seq<Criterion>): string {
    if cs == [] then "" else Line(cs[0]) + Lines(cs[1..])
  }

  /** The prompt generatePrompt returns: the header and one line per listed field, or the fallback. */
  function Prompt(form: FormValues): string {
    var cs := Criteria(form);
    if cs == [] then Fallback else Header + Lines(cs)
  }

  /**
   * generatePrompt: grows `criteria` by one guarded append per field and returns
   * the fallback when nothing was appended.
   */
  method GeneratePrompt(form: FormValues) returns (prompt: string)
    ensures prompt == Prompt(form)
  {
    var criteria := AppendCriteria(form);
    NothingAppended(criteria, Criteria(form));
    if criteria == Header {
      return Fallback;
    }
    return criteria;
  }

  /** The guarded appends of generatePrompt: the header, then one line per listed field. */
  method AppendCriteria(form: FormValues) returns (criteria: string)
    ensures criteria == Header + Lines(Criteria(form))
  {
    var month, audience, eventType, goal, cuisine :=
      form.month, form.audience, form.eventType, form.goal, form.cuisine;
    GuardsAreListed(form);

    criteria := Header;
    if Truthy(month) && month.value != "any" {
      criteria := criteria + Line(Criterion(Month, month.value));
    }
    ghost var withMonth := criteria;
    AppendStep(form, Month, Header, withMonth);
    if Truthy(audience) && audience.value != "any" {
      criteria := criteria + Line(Criterion(Audience, audience.value));
    }
    ghost var withAudience := criteria;
    AppendStep(form, Audience, withMonth, withAudience);
    if Truthy(eventType) && eventType.value != "any" {
      criteria := criteria + Line(Criterion(EventType, eventType.value));
    }
    ghost var withType := criteria;
    AppendStep(form, EventType, withAudience, withType);
    if Truthy(goal) && goal.value != "any" {
      criteria := criteria + Line(Criterion(Goal, goal.value));
    }
    ghost var withGoal := criteria;
    AppendStep(form, Goal, withType, withGoal);
    if Truthy(cuisine) {
      criteria := criteria + Line(Criterion(Cuisine, cuisine.value));
    }
    AppendStep(form, Cuisine, withGoal, criteria);
    PromptByContributions(form);
    Reassociated(Header, Lines(Contribution(form, Month)), Lines(Contribution(form, Audience)),
      Lines(Contribution(form, EventType)), Lines(Contribution(form, Goal)), Lines(Contribution(form, Cuisine)));
  }

  lemma CriteriaUnfolded(form: FormValues)
    ensures Criteria(form) ==
      Contribution(form, Month) + Contribution(form, Audience) + Contribution(form, EventType)
      + Contribution(form, Goal) + Contribution(form, Cuisine)
  {
    var t0 := FieldOrder;
    var t1 := t0[1..];
    var t2 := t1[1..];
    var t3 := t2[1..];
    var t4 := t3[1..];
    assert t0[0] == Month && t1[0] == Audience && t2[0] == EventType && t3[0] == Goal && t4[0] == Cuisine;
    assert |t4[1..]| == 0;
    var c4 := Contribution(form, Cuisine);
    assert CriteriaOf(t4, form) == c4 + [];
    var c3 := Contribution(form, Goal) + c4;
    assert CriteriaOf(t3, form) == c3;
    var c2 := Contribution(form, EventType) + c3;
    assert CriteriaOf(t2, form) == c2;
    var c1 := Contribution(form, Audience) + c2;
    assert CriteriaOf(t1, form) == c1;
    assert CriteriaOf(t0, form) == Contribution(form, Month) + c1;
  }

  /** One guarded append: the text grows by exactly the field's contribution. */
  lemma AppendStep(form: FormValues, f: Field, before: string, after: string)
    requires after == if Listed(form, f) then before + Line(Criterion(f, ValueOf(form, f).value)) else before
    ensures after == before + Lines(Contribution(form, f))
  {
    if Listed(form, f) {
      assert Contribution(form, f)[1..] == [];
    }
  }

  /** The source's guards decide exactly which fields are listed. */
  lemma GuardsAreListed(form: FormValues)
    ensures Listed(form, Month) == (Truthy(form.month) && form.month.value != "any")
    ensures Listed(form, Audience) == (Truthy(form.audience) && form.audience.value != "any")
    ensures Listed(form, EventType) == (Truthy(form.eventType) && form.eventType.value != "any")
    ensures Listed(form, Goal) == (Truthy(form.goal) && form.goal.value != "any")
    ensures Listed(form, Cuisine) == Truthy(form.cuisine)
  {
  }

  /** The prompt's lines are the lines of each field's contribution, in field order. */
  lemma PromptByContributions(form: FormValues)
    ensures Lines(Criteria(form)) ==
      Lines(Contribution(form, Month)) + Lines(Contribution(form, Audience)) + Lines(Contribution(form, EventType))
      + Lines(Contribution(form, Goal)) + Lines(Contribution(form, Cuisine))
  {
    var cm, ca, ce, cg, cc :=
      Contribution(form, Month), Contribution(form, Audience), Contribution(form, EventType),
      Contribution(form, Goal), Contribution(form, Cuisine);
    CriteriaUnfolded(form);
    LinesConcat(cm + ca + ce + cg, cc);
    LinesConcat(cm + ca + ce, cg);
    LinesConcat(cm + ca, ce);
    LinesConcat(cm, ca);
  }

  lemma Reassociated(h: string, a: string, b: string, c: string, d: string, e: string)
    ensures h + a + b + c + d + e == h + (a + b + c + d + e)
  {
  }

  lemma {:induction false} LinesConcat(a: seq<Criterion>, b: seq<Criterion>)
    ensures Lines(a + b) == Lines(a) + Lines(b)
  {
    if a != [] {
      assert (a + b)[1..] == a[1..] + b;
      LinesConcat(a[1..], b);
    } else {
      assert a + b == b;
    }
  }

  /** `criteria` still equals the header exactly when no line was appended. */
  lemma NothingAppended(criteria: string, listed: seq<Criterion>)
    requires criteria == Header + Lines(listed)
    ensures criteria == Header <==> listed == []
  {
    LinesEmpty(listed);
    assert |criteria| == |Header| + |Lines(listed)|;
  }

  lemma {:induction false} LinesAppend(cs: seq<Criterion>, c: Criterion)
    ensures Lines(cs + [c]) == Lines(cs) + Line(c)
  {
    if cs == [] {
      assert [c][1..] == [];
    } else {
      assert (cs + [c])[1..] == cs[1..] + [c];
      LinesAppend(cs[1..], c);
    }
  }

  /** Every line is non-empty, so the lines vanish exactly when no criterion is listed. */
  lemma {:induction false} LinesEmpty(cs: seq<Criterion>)
    ensures Lines(cs) == "" <==> cs == []
  {
    if cs != [] {
      assert |Line(cs[0])| > 0;
    }
  }

  /** Rendered lines, when there are any, end in a newline. */
  lemma {:induction false} LinesEndInNewline(cs: seq<Criterion>)
    requires cs != []
    ensures |Lines(cs)| > 0 && Lines(cs)[|Lines(cs)| - 1] == '\n'
  {
    if cs[1..] != [] {
      LinesEndInNewline(cs[1..]);
    }
  }

  /** The prompt is the fallback exactly when the submission constrains nothing. */
  lemma FallbackExactly(form: FormValues)
    ensures Prompt(form) == Fallback <==> Unconstrained(form)
    ensures Unconstrained(form) <==> Criteria(form) == []
  {
    CriteriaUnfolded(form);
    if Criteria(form) != [] {
      LinesEndInNewline(Criteria(form));
      assert Fallback[|Fallback| - 1] == '.';
    }
  }

  /**
   * A constrained submission yields the header followed by its lines; the
   * result is longer than the header and ends in a newline.
   */
  lemma ConstrainedShape(form: FormValues)
    requires !Unconstrained(form)
    ensures Prompt(form) == Header + Lines(Criteria(form))
    ensures |Prompt(form)| > |Header| && Prompt(form)[..|Header|] == Header
    ensures Prompt(form)[|Prompt(form)| - 1] == '\n'
  {
    FallbackExactly(form);
    LinesEmpty(Criteria(form));
    LinesEndInNewline(Criteria(form));
  }

  /**
   * The criteria list one entry per listed field and no other, carrying the
   * submitted value, in the fixed field order.
   */
  lemma CriteriaInOrder(form: FormValues)
    ensures var cs := Criteria(form);
      && |cs| <= |FieldOrder|
      && (forall i, j :: 0 <= i < j < |cs| ==> cs[i].field.Ordinal() < cs[j].field.Ordinal())
      && (forall i :: 0 <= i < |cs| ==> Listed(form, cs[i].field) && cs[i].value == ValueOf(form, cs[i].field).value)
      && (forall f: Field :: Listed(form, f) ==> exists i :: 0 <= i < |cs| && cs[i].field == f)
  {
    forall f: Field ensures f in FieldOrder {
      assert FieldOrder[f.Ordinal()] == f;
    }
    CriteriaOfSound(FieldOrder, form);
    CriteriaOfOrdered(FieldOrder, form);
    CriteriaOfComplete(FieldOrder, form);
  }

  /** Each criterion comes from one of the given fields, is listed, and carries the submitted value. */
  lemma {:induction false} CriteriaOfSound(fields: seq<Field>, form: FormValues)
    ensures var cs := CriteriaOf(fields, form);
      && |cs| <= |fields|
      && (forall i :: 0 <= i < |cs| ==> cs[i].field in fields)
      && (forall i :: 0 <= i < |cs| ==> Listed(form, cs[i].field) && cs[i].value == ValueOf(form, cs[i].field).value)
  {
    CriteriaOfFields(fields, form);
    if fields != [] {
      CriteriaOfSound(fields[1..], form);
      assert CriteriaOf(fields, form) == Contribution(form, fields[0]) + CriteriaOf(fields[1..], form);
    }
  }

  /** Criteria come only from the given fields. */
  lemma {:induction false} CriteriaOfFields(fields: seq<Field>, form: FormValues)
    ensures var cs := CriteriaOf(fields, form);
      && |cs| <= |fields|
      && (forall i :: 0 <= i < |cs| ==> cs[i].field in fields)
  {
    if fields != [] {
      CriteriaOfFields(fields[1..], form);
      var rest := CriteriaOf(fields[1..], form);
      assert CriteriaOf(fields, form) == Contribution(form, fields[0]) + rest;
      forall i | 0 <= i < |rest| ensures rest[i].field in fields {
        assert rest[i].field in fields[1..];
      }
    }
  }

  /** Criteria keep the order of the fields they come from. */
  lemma {:induction false} CriteriaOfOrdered(fields: seq<Field>, form: FormValues)
    requires forall i, j :: 0 <= i < j < |fields| ==> fields[i].Ordinal() < fields[j].Ordinal()
    ensures FieldsAscend(CriteriaOf(fields, form))
  {
    if fields != [] {
      var rest := CriteriaOf(fields[1..], form);
      CriteriaOfOrdered(fields[1..], form);
      HeadBeforeRest(fields, form);
      if Listed(form, fields[0]) {
        var c := Criterion(fields[0], ValueOf(form, fields[0]).value);
        assert CriteriaOf(fields, form) == [c] + rest;
        assert c.field == fields[0];
        ConsAscends(c, rest);
      } else {
        assert CriteriaOf(fields, form) == rest;
      }
    }
  }

  /** The criteria's fields come in strictly increasing ordinal order. */
  predicate FieldsAscend(cs: seq<Criterion>) {
    forall i, j :: 0 <= i < j < |cs| ==> cs[i].field.Ordinal() < cs[j].field.Ordinal()
  }

  /** The first field comes before every field of the rest's criteria. */
  lemma HeadBeforeRest(fields: seq<Field>, form: FormValues)
    requires fields != []
    requires forall i, j :: 0 <= i < j < |fields| ==> fields[i].Ordinal() < fields[j].Ordinal()
    ensures forall i :: 0 <= i < |CriteriaOf(fields[1..], form)| ==>
      fields[0].Ordinal() < CriteriaOf(fields[1..], form)[i].field.Ordinal()
  {
    var rest := CriteriaOf(fields[1..], form);
    CriteriaOfFields(fields[1..], form);
    forall i | 0 <= i < |rest| ensures fields[0].Ordinal() < rest[i].field.Ordinal() {
      var k :| 0 <= k < |fields[1..]| && fields[1..][k] == rest[i].field;
      assert fields[k + 1] == rest[i].field;
    }
  }

  lemma ConsAscends(c: Criterion, rest: seq<Criterion>)
    requires FieldsAscend(rest)
    requires forall i :: 0 <= i < |rest| ==> c.field.Ordinal() < rest[i].field.Ordinal()
    ensures FieldsAscend([c] + rest)
  {
    var cs := [c] + rest;
    forall i, j | 0 <= i < j < |cs| ensures cs[i].field.Ordinal() < cs[j].field.Ordinal() {
      assert cs[j] == rest[j - 1];
      if i > 0 {
        assert cs[i] == rest[i - 1];
      }
    }
  }

  /** Every listed field among the given ones has a criterion. */
  lemma {:induction false} CriteriaOfComplete(fields: seq<Field>, form: FormValues)
    ensures var cs := CriteriaOf(fields, form);
      forall f: Field :: f in fields && Listed(form, f) ==> exists i :: 0 <= i < |cs| && cs[i].field == f
  {
    if fields != [] {
      CriteriaOfComplete(fields[1..], form);
      var rest := CriteriaOf(fields[1..], form);
      var head := Contribution(form, fields[0]);
      var cs := CriteriaOf(fields, form);
      assert cs == head + rest;
      forall f: Field | f in fields && Listed(form, f) ensures exists i :: 0 <= i < |cs| && cs[i].field == f {
        if f == fields[0] {
          assert cs[0].field == f;
        } else {
          assert f in fields[1..];
          var i :| 0 <= i < |rest| && rest[i].field == f;
          assert cs[|head| + i].field == f;
        }
      }
      assert CriteriaOf(fields, form) == cs;
    }
  }

  /** Fields that agree on being listed and on the listed value give the same criteria. */
  lemma {:induction false} CriteriaOfAgree(fields: seq<Field>, a: FormValues, b: FormValues)
    requires forall f: Field :: Listed(a, f) == Listed(b, f)
    requires forall f: Field :: Listed(a, f) ==> ValueOf(a, f) == ValueOf(b, f)
    ensures CriteriaOf(fields, a) == CriteriaOf(fields, b)
  {
    if fields != [] {
      CriteriaOfAgree(fields[1..], a, b);
    }
  }

  /**
   * For month, audience, type and goal, "any" and "" are the same as an absent
   * value; for cuisine only "" is.
   */
  lemma SentinelIsNoConstraint(form: FormValues, field: Field)
    ensures Prompt(With(form, field, Some(""))) == Prompt(With(form, field, None))
    ensures field.HonoursSentinel() ==>
      Prompt(With(form, field, Some(Sentinel))) == Prompt(With(form, field, None))
  {
    CriteriaOfAgree(FieldOrder, With(form, field, Some("")), With(form, field, None));
    if field.HonoursSentinel() {
      CriteriaOfAgree(FieldOrder, With(form, field, Some(Sentinel)), With(form, field, None));
    }
  }

  /** A cuisine of "any" is listed: it adds the line "- Cuisine Focus: any" at the end. */
  lemma CuisineAnyIsListed(form: FormValues)
    ensures Prompt(form.(cuisine := Some(Sentinel)))
         == Header + Lines(Criteria(form.(cuisine := None))) + "- Cuisine Focus: any\n"
  {
    var c := Criterion(Cuisine, Sentinel);
    var cs := Criteria(form.(cuisine := None));
    CuisineAnyCriteria(form);
    LinesAppend(cs, c);
    CuisineAnyLine();
    AppendAssociates(Header, Lines(cs), Line(c));
  }

  /** With a cuisine of "any", the criteria are those without a cuisine, then the cuisine. */
  lemma CuisineAnyCriteria(form: FormValues)
    ensures Criteria(form.(cuisine := Some(Sentinel)))
         == Criteria(form.(cuisine := None)) + [Criterion(Cuisine, Sentinel)]
  {
    var withAny, without := form.(cuisine := Some(Sentinel)), form.(cuisine := None);
    CriteriaUnfolded(withAny);
    CriteriaUnfolded(without);
    assert Contribution(withAny, Cuisine) == [Criterion(Cuisine, Sentinel)];
    assert Contribution(without, Cuisine) == [];
    var front := Contribution(form, Month) + Contribution(form, Audience)
      + Contribution(form, EventType) + Contribution(form, Goal);
    assert Criteria(without) == front + [];
    assert front + [] == front;
  }

  lemma AppendAssociates(a: string, b: string, c: string)
    ensures a + (b + c) == a + b + c
  {
  }

  lemma CuisineAnyLine()
    ensures Line(Criterion(Cuisine, Sentinel)) == "- Cuisine Focus: any\n"
  {
  }
}
