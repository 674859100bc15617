/**
 * The record kept for each subdomain (the `cnameObject` typedef of
 * src/util/types.js): its target, the optional noCF tag, the outcome of the
 * HTTP and HTTPS probes, and what automatic contact achieved.
 */
module Entries {
  import opened Wrappers
  import opened JsObjects

  /** The part of a created GitHub issue that the core reads. */
  datatype IssueData = IssueData(htmlUrl: string)

  datatype Entry = Entry(
    target: string,
    noCF: Option<string>,
    http: Option<string>,
    https: Option<string>,
    failed: Option<bool>,
    issue: Option<IssueData>,
    contact: Option<bool>)

  /** `{ target, noCF }`, as the parsers build it. */
  function Record(target: string, noCF: Option<string>): Entry {
    Entry(target, noCF, None, None, None, None, None)
  }

  /**
   * The `{}` placeholder of src/robot/prs.js:129. It has no target; the
   * model gives it the empty one, which the probing loop never reads.
   */
  function Placeholder(): Entry {
    Record("", None)
  }

  /** JavaScript truthiness of an optional flag. */
  predicate Truthy(b: Option<bool>) {
    b == Some(true)
  }

  /** JavaScript truthiness of an optional string. */
  predicate Present(s: Option<string>) {
    s.Some? && s.value != ""
  }

  /** A subdomain → entry object. */
  type Registry = JsObject<Entry>
}
