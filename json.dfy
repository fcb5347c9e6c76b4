/**
 * Request data as the validators see it: JSON values, objects as maps, the
 * issues a schema reports, and the parts of a request a schema is applied to.
 */
module Json {
  import opened Common

  /** A JSON value; `Absent` stands for a key the object does not have. */
  datatype Value = Absent | Null | Bool(b: bool) | Num(n: real) | Str(s: string) | Composite

  type Object = map<string, Value>

  function Field(o: Object, name: string): Value {
    if name in o then o[name] else Absent
  }

  /** The kinds of issue the schemas can report. */
  datatype Code = Required | InvalidType | TooSmall | TooBig | NotInteger | NotPositive | NotEmail

  /**
   * One validation issue: the path to the offending value, its kind, and the
   * message the schema sets for it (`None` where the library's default applies).
   */
  datatype Issue = Issue(path: seq<string>, code: Code, message: Option<string>)

  /** What the validation middleware hands to a schema: the body and the route parameters. */
  datatype RequestParts = RequestParts(body: Object, params: map<string, string>)

  /** Issues of a nested schema, reported under the name of the field that holds it. */
  function Under(name: string, issues: seq<Issue>): (r: seq<Issue>)
    ensures |r| == |issues|
    ensures forall i :: 0 <= i < |r| ==> r[i].path == [name] + issues[i].path && r[i].code == issues[i].code
  {
    seq(|issues|, i requires 0 <= i < |issues| => issues[i].(path := [name] + issues[i].path))
  }

  /** A parse result moved under a field name, the value unchanged. */
  function Nest<T>(name: string, p: Parsed<T, Issue>): Parsed<T, Issue> {
    match p
    case Accepted(v) => Accepted(v)
    case Rejected(issues) => Rejected(Under(name, issues))
  }
}
