/** The request records and their bean-validation constraints. Each record's
    constraints are given as the set of field errors a validation run reports;
    a record is valid when that set is empty. `now` is the instant of the
    request, which `@FutureOrPresent` compares against. */
module Dtos {
  import opened Wrappers
  import opened JavaText
  import opened Entities

  /** One failed constraint, as Spring's binding result reports it. */
  datatype FieldError = FieldError(field: string, defaultMessage: string)

  datatype TaskCreateDto = TaskCreateDto(title: Option<string>, description: Option<string>, dueDate: Option<Date>)

  /** `completed` is optional: `None` leaves the stored flag as it is. */
  datatype TaskUpdateDto = TaskUpdateDto(
    title: Option<string>,
    description: Option<string>,
    dueDate: Option<Date>,
    completed: Option<bool>)

  /** The record the project-creation endpoint takes; its constraints are not
      part of this model. */
  datatype CreateProjectDto = CreateProjectDto(title: Option<string>, description: Option<string>)

  datatype UpdateProjectDto = UpdateProjectDto(title: Option<string>, description: Option<string>)

  datatype TaskFilterDto = TaskFilterDto(
    query: Option<string>,
    completed: Option<bool>,
    dueDateFrom: Option<Date>,
    dueDateTo: Option<Date>)

  const TitleRequired := "Title is required"
  const DueDateNotPast := "Due date must be in the present or future"
  const TitleSize := "Title must be between 4 and 50 characters"
  const DateRangeOrder := "dueDateFrom must be before dueDateTo"

  /** `@FutureOrPresent`: null is valid, otherwise the date must not be before now. */
  predicate FutureOrPresent(d: Option<Date>, now: Date)
  {
    d.None? || d.value >= now
  }

  /** Java's `String.length()`: UTF-16 code units, two for a character outside
      the Basic Multilingual Plane. */
  function JavaLength(s: string): (n: nat)
    ensures |s| <= n <= 2 * |s|
  {
    if s == [] then 0 else (if s[0] as int > 0xFFFF then 2 else 1) + JavaLength(s[1..])
  }

  /** `@Size(min, max)`: null is valid. */
  predicate SizeBetween(s: Option<string>, min: nat, max: nat)
  {
    s.None? || min <= JavaLength(s.value) <= max
  }

  // ---- TaskCreateDTO ----

  function CreateTaskViolations(d: TaskCreateDto, now: Date): (errs: set<FieldError>)
    ensures FieldError("title", TitleRequired) in errs <==> !NotBlank(d.title)
    ensures FieldError("dueDate", DueDateNotPast) in errs <==> !FutureOrPresent(d.dueDate, now)
    ensures forall e :: e in errs ==> e == FieldError("title", TitleRequired) || e == FieldError("dueDate", DueDateNotPast)
  {
    (if NotBlank(d.title) then {} else {FieldError("title", TitleRequired)})
    + (if FutureOrPresent(d.dueDate, now) then {} else {FieldError("dueDate", DueDateNotPast)})
  }

  predicate IsValidCreateTask(d: TaskCreateDto, now: Date)
  {
    CreateTaskViolations(d, now) == {}
  }

  /** A task is creatable exactly when its title is non-blank and its due date is
      absent or not in the past: the description plays no part. */
  lemma CreateTaskValidity(d: TaskCreateDto, now: Date)
    ensures IsValidCreateTask(d, now) <==> NotBlank(d.title) && (d.dueDate.None? || d.dueDate.value >= now)
    ensures forall desc :: IsValidCreateTask(d.(description := desc), now) == IsValidCreateTask(d, now)
  {
    if !NotBlank(d.title) {
      assert FieldError("title", TitleRequired) in CreateTaskViolations(d, now);
    }
    if !FutureOrPresent(d.dueDate, now) {
      assert FieldError("dueDate", DueDateNotPast) in CreateTaskViolations(d, now);
    }
  }

  /** A title made only of characters up to U+0020 (spaces, tabs, newlines) is
      missing, as is an empty or null title. */
  lemma WhitespaceTitleIsRequired(title: string, description: Option<string>, dueDate: Option<Date>, now: Date)
    requires forall i :: 0 <= i < |title| ==> IsTrimmable(title[i])
    ensures FieldError("title", TitleRequired) in CreateTaskViolations(TaskCreateDto(Some(title), description, dueDate), now)
    ensures FieldError("title", TitleRequired) in CreateTaskViolations(TaskCreateDto(None, description, dueDate), now)
  {
  }

  /** The two cases of the controller tests: an empty title is refused. The
      test takes its due date just before the request, so at validation time
      the date is either still the present, and only the title is reported, or
      already past, and both fields are. */
  lemma EmptyTitleExample(now: Date, due: Date)
    ensures CreateTaskViolations(TaskCreateDto(Some(""), Some("Task Description"), Some(now)), now)
         == {FieldError("title", TitleRequired)}
    ensures due < now ==> (
      CreateTaskViolations(TaskCreateDto(Some(""), Some("Task Description"), Some(due)), now)
      == {FieldError("title", TitleRequired), FieldError("dueDate", DueDateNotPast)})
  {
  }

  /** ...and a titled task without a due date is accepted. */
  lemma TitledTaskExample(now: Date)
    ensures IsValidCreateTask(TaskCreateDto(Some("Test Task"), Some("Task Description"), None), now)
  {
    assert !IsTrimmable("Test Task"[0]);
  }

  // ---- TaskUpdateDTO ----

  /** The same title and due-date constraints as creation; `completed` is free. */
  function UpdateTaskViolations(d: TaskUpdateDto, now: Date): (errs: set<FieldError>)
    ensures errs == CreateTaskViolations(TaskCreateDto(d.title, d.description, d.dueDate), now)
  {
    (if NotBlank(d.title) then {} else {FieldError("title", TitleRequired)})
    + (if FutureOrPresent(d.dueDate, now) then {} else {FieldError("dueDate", DueDateNotPast)})
  }

  predicate IsValidUpdateTask(d: TaskUpdateDto, now: Date)
  {
    UpdateTaskViolations(d, now) == {}
  }

  lemma UpdateTaskValidity(d: TaskUpdateDto, now: Date)
    ensures IsValidUpdateTask(d, now) <==> NotBlank(d.title) && (d.dueDate.None? || d.dueDate.value >= now)
    ensures forall c :: IsValidUpdateTask(d.(completed := c), now) == IsValidUpdateTask(d, now)
  {
    CreateTaskValidity(TaskCreateDto(d.title, d.description, d.dueDate), now);
  }

  // ---- UpdateProjectDTO ----

  function UpdateProjectViolations(d: UpdateProjectDto): (errs: set<FieldError>)
    ensures FieldError("title", TitleRequired) in errs <==> !NotBlank(d.title)
    ensures FieldError("title", TitleSize) in errs <==> !SizeBetween(d.title, 4, 50)
    ensures forall e :: e in errs ==> e == FieldError("title", TitleRequired) || e == FieldError("title", TitleSize)
  {
    (if NotBlank(d.title) then {} else {FieldError("title", TitleRequired)})
    + (if SizeBetween(d.title, 4, 50) then {} else {FieldError("title", TitleSize)})
  }

  predicate IsValidUpdateProject(d: UpdateProjectDto)
  {
    UpdateProjectViolations(d) == {}
  }

  lemma UpdateProjectValidity(d: UpdateProjectDto)
    ensures IsValidUpdateProject(d) <==>
              d.title.Some? && Trim(d.title.value) != [] && 4 <= JavaLength(d.title.value) <= 50
    ensures forall desc :: IsValidUpdateProject(d.(description := desc)) == IsValidUpdateProject(d)
  {
    if !NotBlank(d.title) {
      assert FieldError("title", TitleRequired) in UpdateProjectViolations(d);
    }
    if !SizeBetween(d.title, 4, 50) {
      assert FieldError("title", TitleSize) in UpdateProjectViolations(d);
    }
  }

  /** "ab" is too short but not blank. */
  lemma ShortTitleExample(desc: Option<string>)
    ensures UpdateProjectViolations(UpdateProjectDto(Some("ab"), desc)) == {FieldError("title", TitleSize)}
  {
    assert !IsTrimmable("ab"[0]);
    assert JavaLength("ab") == 2;
  }

  /** Four spaces pass the size check but are blank. */
  lemma SpacesTitleExample(desc: Option<string>)
    ensures UpdateProjectViolations(UpdateProjectDto(Some("    "), desc)) == {FieldError("title", TitleRequired)}
  {
    assert JavaLength("    ") == 4;
  }

  /** Three spaces break both constraints on the same field, and a missing
      title only the first. */
  lemma BothTitleConstraintsExample(desc: Option<string>)
    ensures UpdateProjectViolations(UpdateProjectDto(Some("   "), desc))
         == {FieldError("title", TitleRequired), FieldError("title", TitleSize)}
    ensures UpdateProjectViolations(UpdateProjectDto(None, desc)) == {FieldError("title", TitleRequired)}
  {
    assert JavaLength("   ") == 3;
  }

  // ---- TaskFilterDTO ----

  /** `isDateRangeValid`: only a range with both bounds present is checked, and
      then `dueDateFrom` must be strictly before `dueDateTo`. */
  predicate IsDateRangeValid(f: TaskFilterDto)
  {
    if f.dueDateFrom.None? || f.dueDateTo.None? then true
    else f.dueDateFrom.value < f.dueDateTo.value
  }

  /** The `@AssertTrue` on `isDateRangeValid` reports against the bean property
      `dateRangeValid`. */
  function FilterViolations(f: TaskFilterDto): (errs: set<FieldError>)
    ensures errs == {} <==> IsDateRangeValid(f)
    ensures errs != {} ==> errs == {FieldError("dateRangeValid", DateRangeOrder)}
  {
    if IsDateRangeValid(f) then {} else {FieldError("dateRangeValid", DateRangeOrder)}
  }

  lemma DateRangeValidity(f: TaskFilterDto)
    ensures f.dueDateFrom.None? && f.dueDateTo.None? ==> IsDateRangeValid(f)
    ensures f.dueDateFrom.None? != f.dueDateTo.None? ==> IsDateRangeValid(f)
    ensures f.dueDateFrom.Some? && f.dueDateTo.Some? ==>
              (IsDateRangeValid(f) <==> f.dueDateFrom.value < f.dueDateTo.value)
    ensures f.dueDateFrom.Some? && f.dueDateFrom == f.dueDateTo ==> !IsDateRangeValid(f)
  {
  }
}
