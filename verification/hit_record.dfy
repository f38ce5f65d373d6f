/**
 * The HIT record: construction from optional arguments, validation before
 * creation, and population from a response subtree.
 */
module HitRecord {
  import opened Wrappers
  import opened Values
  import opened Response
  import opened Validator

  /**
   * The requester annotation: the string the client sends, the structured
   * value it parses into after a round trip, or `null` when parsing failed.
   */
  datatype Annotation = Raw(text: string) | Parsed(value: Node) | Null

  datatype Hit = Hit(
    id: Option<string>,
    hitTypeId: Option<string>,
    question: Option<string>,
    lifeTimeInSeconds: Option<int>,
    maxAssignments: Option<int>,
    requesterAnnotation: Option<Annotation>,
    hitStatus: Option<string>,
    hitReviewStatus: Option<string>,
    errors: seq<string>)

  const MinLifetime := 30
  const MaxLifetime := 31536000
  const MaxAnnotationLength := 255

  const MsgHitTypeId := "Please enter a valid hitTypeId"
  const MsgLifetimeMissing := "Please enter a lifeTimeInSeconds"
  const MsgLifetimeInvalid := "Please enter a valid lifeTimeInSeconds"
  const MsgQuestion := "Please provide a question"
  const MsgLifetimeMin := "lifeTimeInSeconds should be >= 30"
  const MsgLifetimeMax := "lifeTimeInSeconds should be <= 31536000"
  const MsgMaxAssignments := "maxAssignments should be an integer"
  const MsgAnnotation := "Please enter a valid requesterAnnotation"

  /** Whether an annotation is a non-empty string, the only form that is sent, checked and parsed. */
  predicate IsRawText(a: Option<Annotation>) {
    a.Some? && a.value.Raw? && a.value.text != ""
  }

  predicate HasRawAnnotation(h: Hit) {
    IsRawText(h.requesterAnnotation)
  }

  function KeepText(o: Option<string>): Option<string> {
    if TruthyText(o) then o else None
  }

  function KeepInt(o: Option<int>): Option<int> {
    if TruthyInt(o) then o else None
  }

  /** The constructor: each attribute is set only when its argument is truthy. */
  function NewHit(hitTypeId: Option<string>, question: Option<string>, lifeTimeInSeconds: Option<int>,
                  maxAssignments: Option<int>, requesterAnnotation: Option<string>): (h: Hit)
    ensures h.errors == []
    ensures h.id.None? && h.hitStatus.None? && h.hitReviewStatus.None?
    ensures h.hitTypeId.Some? <==> TruthyText(hitTypeId)
    ensures h.question.Some? <==> TruthyText(question)
    ensures h.lifeTimeInSeconds.Some? <==> TruthyInt(lifeTimeInSeconds)
    ensures h.maxAssignments.Some? <==> TruthyInt(maxAssignments)
    ensures h.requesterAnnotation.Some? <==> TruthyText(requesterAnnotation)
    ensures h.hitTypeId.Some? ==> h.hitTypeId == hitTypeId
    ensures h.question.Some? ==> h.question == question
    ensures h.lifeTimeInSeconds.Some? ==> h.lifeTimeInSeconds == lifeTimeInSeconds
    ensures h.maxAssignments.Some? ==> h.maxAssignments == maxAssignments
    ensures h.requesterAnnotation.Some? ==> h.requesterAnnotation == Some(Raw(requesterAnnotation.value))
  {
    Hit(None, KeepText(hitTypeId), KeepText(question), KeepInt(lifeTimeInSeconds), KeepInt(maxAssignments),
        if TruthyText(requesterAnnotation) then Some(Raw(requesterAnnotation.value)) else None,
        None, None, [])
  }

  /** `new HIT()`, as the listing operations build it before population. */
  function EmptyHit(): Hit {
    NewHit(None, None, None, None, None)
  }

  // ---------------------------------------------------------------- validation

  /** One rule: its message when it is violated, nothing otherwise. */
  function Rule(holds: bool, message: string): seq<string> {
    if holds then [] else [message]
  }

  /**
   * `validate`: one message per violated rule, in the order the rules are
   * registered. Every rule of a chain is evaluated, so an absent hitTypeId
   * violates both `notNull` and `isAlphanumeric`.
   */
  function Validate(h: Hit): seq<string> {
    RequiredRules(h) + BoundRules(h) + OptionalRules(h)
  }

  /** The presence and format rules on hitTypeId, lifeTimeInSeconds and question. */
  function RequiredRules(h: Hit): seq<string> {
    HitTypeIdRules(h) + LifetimeAndQuestionRules(h)
  }

  /** The chain on hitTypeId: `notNull` then `isAlphanumeric`, under one message. */
  function HitTypeIdRules(h: Hit): seq<string> {
    Rule(NotNull(Subject(h.hitTypeId)), MsgHitTypeId)
    + Rule(IsAlphanumeric(Subject(h.hitTypeId)), MsgHitTypeId)
  }

  function LifetimeAndQuestionRules(h: Hit): seq<string> {
    Rule(NotNull(IntSubject(h.lifeTimeInSeconds)), MsgLifetimeMissing)
    + Rule(IsInt(IntSubject(h.lifeTimeInSeconds)), MsgLifetimeInvalid)
    + Rule(NotNull(Subject(h.question)), MsgQuestion)
  }

  /** The two lifetime bounds; an absent lifetime compares false with both. */
  function BoundRules(h: Hit): seq<string> {
    var lifetime := h.lifeTimeInSeconds;
    Rule(!(lifetime.Some? && lifetime.value < MinLifetime), MsgLifetimeMin)
    + Rule(!(lifetime.Some? && lifetime.value > MaxLifetime), MsgLifetimeMax)
  }

  /** The rules on maxAssignments and requesterAnnotation, applied only when they are set. */
  function OptionalRules(h: Hit): seq<string> {
    (if TruthyInt(h.maxAssignments) then Rule(IsInt(IntSubject(h.maxAssignments)), MsgMaxAssignments) else [])
    + (if HasRawAnnotation(h)
       then Rule(Len(h.requesterAnnotation.value.text, 0, MaxAnnotationLength), MsgAnnotation)
       else [])
  }

  /** The presence and format rules report only their own messages, each exactly when violated. */
  lemma RequiredRulesReport(h: Hit)
    ensures forall m :: m in RequiredRules(h) ==>
      m == MsgHitTypeId || m == MsgLifetimeMissing || m == MsgLifetimeInvalid || m == MsgQuestion
    ensures MsgHitTypeId in RequiredRules(h) <==> !IsAlphanumeric(Subject(h.hitTypeId))
    ensures MsgLifetimeMissing in RequiredRules(h) <==> h.lifeTimeInSeconds.None?
    ensures MsgLifetimeInvalid in RequiredRules(h) <==> !(h.lifeTimeInSeconds.Some? && InDecimalRange(h.lifeTimeInSeconds.value))
    ensures MsgQuestion in RequiredRules(h) <==> Subject(h.question) == ""
  {
    IntSubjectIsInt(h.lifeTimeInSeconds);
  }

  /** The optional rules report only their own messages, each exactly when violated. */
  lemma OptionalRulesReport(h: Hit)
    ensures forall m :: m in OptionalRules(h) ==> m == MsgMaxAssignments || m == MsgAnnotation
    ensures MsgMaxAssignments in OptionalRules(h) <==> (TruthyInt(h.maxAssignments) && !InDecimalRange(h.maxAssignments.value))
    ensures MsgAnnotation in OptionalRules(h) <==>
      (HasRawAnnotation(h) && Utf16Length(h.requesterAnnotation.value.text) > MaxAnnotationLength)
  {
    IntSubjectIsInt(h.maxAssignments);
  }

  /** The lifetime bounds report only their own messages, each exactly when violated. */
  lemma BoundRulesReport(h: Hit)
    ensures forall m :: m in BoundRules(h) ==> m == MsgLifetimeMin || m == MsgLifetimeMax
    ensures MsgLifetimeMin in BoundRules(h) <==> (h.lifeTimeInSeconds.Some? && h.lifeTimeInSeconds.value < MinLifetime)
    ensures MsgLifetimeMax in BoundRules(h) <==> (h.lifeTimeInSeconds.Some? && h.lifeTimeInSeconds.value > MaxLifetime)
  {
  }

  /** A message is reported exactly when one of the three rule groups reports it. */
  lemma InValidate(h: Hit, m: string)
    ensures m in Validate(h) <==> m in RequiredRules(h) || m in BoundRules(h) || m in OptionalRules(h)
  {
    var a, b, c := RequiredRules(h), BoundRules(h), OptionalRules(h);
    assert Validate(h) == a + b + c;
  }

  /** The messages of the presence and format rules, as validation reports them. */
  lemma ValidateReportsRequired(h: Hit)
    ensures MsgHitTypeId in Validate(h) <==> !IsAlphanumeric(Subject(h.hitTypeId))
    ensures MsgLifetimeMissing in Validate(h) <==> h.lifeTimeInSeconds.None?
    ensures MsgLifetimeInvalid in Validate(h) <==> !(h.lifeTimeInSeconds.Some? && InDecimalRange(h.lifeTimeInSeconds.value))
    ensures MsgQuestion in Validate(h) <==> Subject(h.question) == ""
  {
    RequiredRulesReport(h);
    BoundRulesReport(h);
    OptionalRulesReport(h);
    InValidate(h, MsgHitTypeId);
    InValidate(h, MsgLifetimeMissing);
    InValidate(h, MsgLifetimeInvalid);
    InValidate(h, MsgQuestion);
  }

  /** The messages of the bound and optional rules, as validation reports them. */
  lemma ValidateReportsBounds(h: Hit)
    ensures MsgLifetimeMin in Validate(h) <==> (h.lifeTimeInSeconds.Some? && h.lifeTimeInSeconds.value < MinLifetime)
    ensures MsgLifetimeMax in Validate(h) <==> (h.lifeTimeInSeconds.Some? && h.lifeTimeInSeconds.value > MaxLifetime)
    ensures MsgMaxAssignments in Validate(h) <==> (TruthyInt(h.maxAssignments) && !InDecimalRange(h.maxAssignments.value))
    ensures MsgAnnotation in Validate(h) <==>
      (HasRawAnnotation(h) && Utf16Length(h.requesterAnnotation.value.text) > MaxAnnotationLength)
  {
    RequiredRulesReport(h);
    BoundRulesReport(h);
    OptionalRulesReport(h);
    InValidate(h, MsgLifetimeMin);
    InValidate(h, MsgLifetimeMax);
    InValidate(h, MsgMaxAssignments);
    InValidate(h, MsgAnnotation);
  }

  /** Which messages validation reports, each tied to the rule it stands for. */
  lemma ValidateReports(h: Hit)
    ensures MsgHitTypeId in Validate(h) <==> !IsAlphanumeric(Subject(h.hitTypeId))
    ensures MsgLifetimeMissing in Validate(h) <==> h.lifeTimeInSeconds.None?
    ensures MsgLifetimeInvalid in Validate(h) <==> !(h.lifeTimeInSeconds.Some? && InDecimalRange(h.lifeTimeInSeconds.value))
    ensures MsgQuestion in Validate(h) <==> Subject(h.question) == ""
    ensures MsgLifetimeMin in Validate(h) <==> (h.lifeTimeInSeconds.Some? && h.lifeTimeInSeconds.value < MinLifetime)
    ensures MsgLifetimeMax in Validate(h) <==> (h.lifeTimeInSeconds.Some? && h.lifeTimeInSeconds.value > MaxLifetime)
    ensures MsgMaxAssignments in Validate(h) <==> (TruthyInt(h.maxAssignments) && !InDecimalRange(h.maxAssignments.value))
    ensures MsgAnnotation in Validate(h) <==>
      (HasRawAnnotation(h) && Utf16Length(h.requesterAnnotation.value.text) > MaxAnnotationLength)
  {
    ValidateReportsRequired(h);
    ValidateReportsBounds(h);
  }

  /** The record the service accepts, stated field by field. */
  predicate WellFormed(h: Hit) {
    && h.hitTypeId.Some? && IsAlphanumeric(h.hitTypeId.value)
    && h.question.Some? && h.question.value != ""
    && h.lifeTimeInSeconds.Some? && MinLifetime <= h.lifeTimeInSeconds.value <= MaxLifetime
    && (h.maxAssignments.Some? ==> InDecimalRange(h.maxAssignments.value))
    && (HasRawAnnotation(h) ==> Utf16Length(h.requesterAnnotation.value.text) <= MaxAnnotationLength)
  }

  /** Validation reports nothing exactly for a well-formed record. */
  lemma ValidateEmptyIffWellFormed(h: Hit)
    ensures Validate(h) == [] <==> WellFormed(h)
  {
    ValidateReports(h);
    var errs := Validate(h);
    if errs != [] {
      var m := errs[0];
      InValidate(h, m);
      RequiredRulesReport(h);
      BoundRulesReport(h);
      OptionalRulesReport(h);
    }
  }

  /** The hitTypeId rules report its message twice when it is absent or empty, once when not alphanumeric. */
  lemma HitTypeIdRulesCount(h: Hit)
    ensures multiset(RequiredRules(h))[MsgHitTypeId] ==
      if Subject(h.hitTypeId) == "" then 2
      else if IsAlphanumeric(Subject(h.hitTypeId)) then 0
      else 1
  {
    var a, b := HitTypeIdRules(h), LifetimeAndQuestionRules(h);
    assert multiset(a + b) == multiset(a) + multiset(b);
    assert MsgHitTypeId !in b;
  }

  /** How often the hitTypeId message is reported: twice when absent or empty, once when not alphanumeric. */
  lemma HitTypeIdMessageCount(h: Hit)
    ensures multiset(Validate(h))[MsgHitTypeId] ==
      if Subject(h.hitTypeId) == "" then 2
      else if IsAlphanumeric(Subject(h.hitTypeId)) then 0
      else 1
  {
    HitTypeIdRulesCount(h);
    BoundRulesReport(h);
    OptionalRulesReport(h);
    var a, b, c := RequiredRules(h), BoundRules(h), OptionalRules(h);
    assert Validate(h) == a + b + c;
    assert multiset(a + b + c) == multiset(a) + multiset(b) + multiset(c);
    assert MsgHitTypeId !in b && MsgHitTypeId !in c;
  }

  // ---------------------------------------------------------------- population

  /** The attributes the response field map may set. */
  datatype Field = Id | TypeId | Status | ReviewStatus

  /** Response field name to attribute, as HIT hands it to the generic copy. */
  const HitFieldMap: seq<(string, Field)> :=
    [("HITId", Id), ("HITTypeId", TypeId), ("HITStatus", Status), ("HITReviewStatus", ReviewStatus)]

  function FieldOf(h: Hit, f: Field): Option<string> {
    match f
    case Id => h.id
    case TypeId => h.hitTypeId
    case Status => h.hitStatus
    case ReviewStatus => h.hitReviewStatus
  }

  function WithField(h: Hit, f: Field, v: string): Hit {
    match f
    case Id => h.(id := Some(v))
    case TypeId => h.(hitTypeId := Some(v))
    case Status => h.(hitStatus := Some(v))
    case ReviewStatus => h.(hitReviewStatus := Some(v))
  }

  /** An attribute after a copy: the response's value when present, the old one otherwise. */
  function Overwrite(prior: Option<string>, incoming: Option<string>): Option<string> {
    if incoming.Some? then incoming else prior
  }

  /** The generic copy: each mapped field present in `n` is copied; absent ones are skipped. */
  function CopyFields(h: Hit, n: Option<Node>, fieldMap: seq<(string, Field)>): Hit
    decreases |fieldMap|
  {
    if |fieldMap| == 0 then h
    else
      var h' := match LeafText(n, fieldMap[0].0)
                case Some(v) => WithField(h, fieldMap[0].1, v)
                case None => h;
      CopyFields(h', n, fieldMap[1..])
  }

  /** The attributes only the client sets: no response field map names them. */
  predicate SameClientFields(a: Hit, b: Hit) {
    && a.question == b.question
    && a.lifeTimeInSeconds == b.lifeTimeInSeconds
    && a.maxAssignments == b.maxAssignments
    && a.requesterAnnotation == b.requesterAnnotation
    && a.errors == b.errors
  }

  lemma {:induction false} CopyFieldsKeepsClientFields(h: Hit, n: Option<Node>, fieldMap: seq<(string, Field)>)
    ensures SameClientFields(CopyFields(h, n, fieldMap), h)
    decreases |fieldMap|
  {
    if |fieldMap| > 0 {
      var h' := match LeafText(n, fieldMap[0].0)
                case Some(v) => WithField(h, fieldMap[0].1, v)
                case None => h;
      CopyFieldsKeepsClientFields(h', n, fieldMap[1..]);
    }
  }

  /** A field the map does not name keeps its value. */
  lemma {:induction false} CopyFieldsUnmapped(h: Hit, n: Option<Node>, fieldMap: seq<(string, Field)>, f: Field)
    requires forall i :: 0 <= i < |fieldMap| ==> fieldMap[i].1 != f
    ensures FieldOf(CopyFields(h, n, fieldMap), f) == FieldOf(h, f)
    decreases |fieldMap|
  {
    if |fieldMap| > 0 {
      var h' := match LeafText(n, fieldMap[0].0)
                case Some(v) => WithField(h, fieldMap[0].1, v)
                case None => h;
      assert FieldOf(h', f) == FieldOf(h, f);
      CopyFieldsUnmapped(h', n, fieldMap[1..], f);
    }
  }

  /** With every field named at most once, a mapped field takes the response's value when it is present. */
  lemma {:induction false} CopyFieldsMapped(h: Hit, n: Option<Node>, fieldMap: seq<(string, Field)>, i: nat)
    requires i < |fieldMap|
    requires forall j, k :: 0 <= j < k < |fieldMap| ==> fieldMap[j].1 != fieldMap[k].1
    ensures FieldOf(CopyFields(h, n, fieldMap), fieldMap[i].1) == Overwrite(FieldOf(h, fieldMap[i].1), LeafText(n, fieldMap[i].0))
    decreases |fieldMap|
  {
    var h' := match LeafText(n, fieldMap[0].0)
              case Some(v) => WithField(h, fieldMap[0].1, v)
              case None => h;
    if i == 0 {
      CopyFieldsUnmapped(h', n, fieldMap[1..], fieldMap[0].1);
    } else {
      assert fieldMap[i] == fieldMap[1..][i - 1];
      assert FieldOf(h', fieldMap[i].1) == FieldOf(h, fieldMap[i].1);
      CopyFieldsMapped(h', n, fieldMap[1..], i - 1);
    }
  }

  /** The annotation after population: a non-empty string is replaced by its parse, or by `null` when it does not parse. */
  function ParseAnnotation(a: Option<Annotation>, jsonParse: string -> Option<Node>): Option<Annotation> {
    match a
    case Some(Raw(s)) =>
      if s == "" then a
      else (match jsonParse(s)
            case Some(v) => Some(Parsed(v))
            case None => Some(Null))
    case _ => a
  }

  /**
   * The annotation after the generic copy: a RequesterAnnotation leaf in the
   * response, copied under its conventional attribute name, replaces the
   * record's own.
   */
  function CopiedAnnotation(h: Hit, n: Option<Node>): Option<Annotation> {
    match LeafText(n, "RequesterAnnotation")
    case Some(t) => Some(Raw(t))
    case None => h.requesterAnnotation
  }

  /**
   * `populateFromResponse`: copy the mapped fields and the annotation from
   * the response subtree, then parse the annotation. It never fails.
   */
  function PopulateFromResponse(h: Hit, n: Option<Node>, jsonParse: string -> Option<Node>): (r: Hit)
    ensures r.id == Overwrite(h.id, LeafText(n, "HITId"))
    ensures r.hitTypeId == Overwrite(h.hitTypeId, LeafText(n, "HITTypeId"))
    ensures r.hitStatus == Overwrite(h.hitStatus, LeafText(n, "HITStatus"))
    ensures r.hitReviewStatus == Overwrite(h.hitReviewStatus, LeafText(n, "HITReviewStatus"))
    ensures r.question == h.question && r.lifeTimeInSeconds == h.lifeTimeInSeconds
    ensures r.maxAssignments == h.maxAssignments && r.errors == h.errors
    ensures LeafText(n, "RequesterAnnotation").None? && !HasRawAnnotation(h) ==>
      r.requesterAnnotation == h.requesterAnnotation
    ensures LeafText(n, "RequesterAnnotation") == Some("") ==> r.requesterAnnotation == Some(Raw(""))
    ensures var a := CopiedAnnotation(h, n);
            IsRawText(a) ==> (r.requesterAnnotation == Some(Null) <==> jsonParse(a.value.text).None?)
    ensures var a := CopiedAnnotation(h, n);
            IsRawText(a) && jsonParse(a.value.text).Some? ==>
              r.requesterAnnotation == Some(Parsed(jsonParse(a.value.text).value))
  {
    CopyFieldsKeepsClientFields(h, n, HitFieldMap);
    CopyFieldsMapped(h, n, HitFieldMap, 0);
    CopyFieldsMapped(h, n, HitFieldMap, 1);
    CopyFieldsMapped(h, n, HitFieldMap, 2);
    CopyFieldsMapped(h, n, HitFieldMap, 3);
    var copied := CopyFields(h, n, HitFieldMap).(requesterAnnotation := CopiedAnnotation(h, n));
    copied.(requesterAnnotation := ParseAnnotation(copied.requesterAnnotation, jsonParse))
  }

  /** `new HIT()` populated from one element of a listing. */
  function HitFromResponse(n: Node, jsonParse: string -> Option<Node>): Hit {
    PopulateFromResponse(EmptyHit(), Some(n), jsonParse)
  }

  /**
   * A record built with maxAssignments 5 and populated from a response
   * carrying HITId and HITStatus takes both and keeps maxAssignments.
   */
  lemma PopulateKeepsMaxAssignments(jsonParse: string -> Option<Node>)
    ensures var h := NewHit(Some("T1"), Some("q"), Some(60), Some(5), None);
            var n := Object(map["HITId" := Leaf("abc123"), "HITStatus" := Leaf("Assignable")]);
            var r := PopulateFromResponse(h, Some(n), jsonParse);
            r.id == Some("abc123") && r.hitStatus == Some("Assignable") && r.maxAssignments == Some(5)
  {
  }
}
