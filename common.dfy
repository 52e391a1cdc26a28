/** Shared vocabulary of the model: optional values, the result of an operation that
    may throw, and JavaScript's truthiness of an optional string. */
module Common {

  /** `T | null | undefined`: both absent forms are `None`. */
  datatype Option<T> = None | Some(value: T)

  /** What an operation of the issue store can throw. */
  datatype Error =
    | ServiceError(reason: string)  // a request to the remote issue service was rejected
    | IssueNotFound                 // `new Error("Issue not found")` of the bulk property update
    | TypeError(reason: string)     // a JavaScript TypeError raised by the store itself

  /** The value an async operation resolves to, or the error it rejects with.
      Responses of the remote service are given to the model as values of this type. */
  datatype Result<T> = Ok(value: T) | Err(error: Error)

  /** `!!s` for a value of type `string | null | undefined`: the empty string is falsy. */
  predicate Truthy(s: Option<string>)
  {
    s.Some? && s.value != ""
  }

  /** `s || undefined` */
  function OrUndefined(s: Option<string>): Option<string>
  {
    if Truthy(s) then s else None
  }

  /** `s ?? d`: only null and undefined fall back to the default. */
  function OrDefault(s: Option<string>, d: string): string
  {
    if s.Some? then s.value else d
  }

  /** No string occurs twice in `s`. */
  ghost predicate Distinct(s: seq<string>)
  {
    forall i, j :: 0 <= i < j < |s| ==> s[i] != s[j]
  }

  /** Dropping the head of a duplicate-free list leaves one without the head. */
  lemma DistinctTail(s: seq<string>)
    requires s != [] && Distinct(s)
    ensures Distinct(s[1..]) && s[0] !in s[1..]
  {
    forall i, j | 0 <= i < j < |s[1..]| ensures s[1..][i] != s[1..][j] {
      assert s[1..][i] == s[i + 1] && s[1..][j] == s[j + 1];
    }
    forall j | 0 <= j < |s[1..]| ensures s[1..][j] != s[0] {
      assert s[1..][j] == s[j + 1];
    }
  }
}
