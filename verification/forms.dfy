/** The two shapes submitted form data takes: PHP's `$_POST` / `$_GET` arrays
    and the browser's `FormData` / `URLSearchParams`. */
module Forms {
  import opened Wrappers

  /** A PHP request parameter: a plain string, or a list from `name[]` fields. */
  datatype Param = Scalar(text: string) | Items(items: seq<string>)

  type Params = map<string, Param>

  /** `$params[k] ?? $default` for a field read as a string. */
  function Field(p: Params, k: string, default: string): string {
    if k in p && p[k].Scalar? then p[k].text else default
  }

  /** `isset($params[k])`. */
  predicate IsSet(p: Params, k: string) {
    k in p
  }

  /** The list under `k`, or `[]` when absent or not a list. */
  function List(p: Params, k: string): seq<string> {
    if k in p && p[k].Items? then p[k].items else []
  }

  /** A `FormData`: every name maps to its values in submission order. */
  type FormData = map<string, seq<string>>

  /** `formData.get(k)`: the first value, or `null`. */
  function Get(fd: FormData, k: string): Option<string> {
    if k in fd && |fd[k]| > 0 then Some(fd[k][0]) else None
  }

  /** `formData.getAll(k)`. */
  function GetAll(fd: FormData, k: string): seq<string> {
    if k in fd then fd[k] else []
  }

  /** JavaScript truthiness of a string-or-null: `null` and "" are falsy, "0" is not. */
  predicate Truthy(v: Option<string>) {
    v.Some? && v.value != ""
  }

  /** `v || fallback` for a string-or-null. */
  function OrElse(v: Option<string>, fallback: string): string {
    if Truthy(v) then v.value else fallback
  }
}
