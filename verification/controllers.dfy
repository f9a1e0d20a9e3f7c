/** The two HTTP controllers as pure maps from what their service returns to
    the action result: a status code and a body. A service is passed in as a
    function; the service layer itself forwards to the repository unchanged. */
module Controllers {
  import opened Wrappers
  import opened SqlValues
  import opened Skills

  /** One member of an anonymous response object. */
  datatype Field = BoolField(b: bool) | TextField(s: Option<string>) | ValueField(v: DbValue)

  datatype Body =
    | SkillList(skills: seq<Skill>)
    | SkillBody(skill: Skill)
    | Object(fields: map<string, Field>)

  /** `Ok(value)`, `NotFound()` and `StatusCode(code, value)`. */
  datatype ActionResult =
    | OkObject(value: Body)
    | NotFoundResult
    | StatusCodeResult(code: int, value: Body)

  const STATUS_OK: int := 200
  const STATUS_NOT_FOUND: int := 404
  const STATUS_SERVER_ERROR: int := 500

  /** The status code the framework writes for a result. */
  function Status(r: ActionResult): int {
    match r
    case OkObject(_) => STATUS_OK
    case NotFoundResult => STATUS_NOT_FOUND
    case StatusCodeResult(code, _) => code
  }

  /** `SkillController.GetAllBasicSkills`: the filter goes to the service
      unchanged and whatever sequence comes back is answered with 200, as is
      and in order, even when empty. */
  function GetAllBasicSkills(service: Filter --> seq<Skill>, filter: Filter): (r: ActionResult)
    requires service.requires(filter)
    ensures Status(r) == STATUS_OK
    ensures r.OkObject? && r.value == SkillList(service(filter))
  {
    var basicSkills := service(filter);
    OkObject(SkillList(basicSkills))
  }

  /** `SkillController.GetBasicSkill`: the id goes to the service unchanged;
      a `NotFound()` result, which carries no value, exactly when the service
      returns null, otherwise 200 carrying exactly the skill returned. */
  function GetBasicSkill(service: int -> Option<Skill>, id: int): (r: ActionResult)
    ensures Status(r) == STATUS_NOT_FOUND <==> service(id).None?
    ensures Status(r) == STATUS_OK <==> service(id).Some?
    ensures service(id).None? ==> r == NotFoundResult
    ensures service(id).Some? ==> r == OkObject(SkillBody(service(id).value))
  {
    var skill := service(id);
    if skill.None? then NotFoundResult else OkObject(SkillBody(skill.value))
  }

  /** The tuple the health-check service returns. */
  datatype ConnectionCheck = ConnectionCheck(ok: bool, message: string, scalar: DbValue, error: Option<string>)

  /** `HealthCheckController.TestDbConnection`: 200 with `{ok, message, scalar}`
      when the check succeeded, 500 with `{ok, message, error}` when it failed.
      The body's `ok` always repeats the tuple's; `message` and the carried
      field are passed through unchanged and the other one is left out. */
  function TestDbConnection(check: ConnectionCheck): (r: ActionResult)
    ensures Status(r) == STATUS_OK <==> check.ok
    ensures Status(r) == STATUS_SERVER_ERROR <==> !check.ok
    ensures r.OkObject? || r.StatusCodeResult?
    ensures r.value.Object? && "ok" in r.value.fields && "message" in r.value.fields
    ensures r.value.fields["ok"] == BoolField(check.ok)
    ensures r.value.fields["message"] == TextField(Some(check.message))
    ensures check.ok ==> r.value.fields.Keys == {"ok", "message", "scalar"}
                         && r.value.fields["scalar"] == ValueField(check.scalar)
    ensures !check.ok ==> r.value.fields.Keys == {"ok", "message", "error"}
                          && r.value.fields["error"] == TextField(check.error)
  {
    if check.ok then
      OkObject(Object(map["ok" := BoolField(true), "message" := TextField(Some(check.message)),
                          "scalar" := ValueField(check.scalar)]))
    else
      StatusCodeResult(STATUS_SERVER_ERROR,
        Object(map["ok" := BoolField(false), "message" := TextField(Some(check.message)),
                    "error" := TextField(check.error)]))
  }

  /** What a client reads back from a health-check response: the `ok` flag,
      the message, and the scalar or the error. */
  function ReadHealthResponse(r: ActionResult): Option<(bool, string, Field)>
  {
    if (r.OkObject? || r.StatusCodeResult?) && r.value.Object?
       && "ok" in r.value.fields && r.value.fields["ok"].BoolField?
       && "message" in r.value.fields && r.value.fields["message"].TextField?
       && r.value.fields["message"].s.Some?
    then
      var ok := r.value.fields["ok"].b;
      var key := if ok then "scalar" else "error";
      if key in r.value.fields
      then Some((ok, r.value.fields["message"].s.value, r.value.fields[key]))
      else None
    else None
  }

  /** The response loses nothing the client is meant to see: the flag, the
      message and the scalar (on success) or the error (on failure) are read
      back exactly. */
  lemma HealthResponseRoundTrip(check: ConnectionCheck)
    ensures ReadHealthResponse(TestDbConnection(check))
            == Some((check.ok, check.message,
                     if check.ok then ValueField(check.scalar) else TextField(check.error)))
  {
  }
}
