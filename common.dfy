/** Shared vocabulary of the backend model: record identifiers, the
    failure-compatible result of every request handler, and the error
    kinds the handlers answer with (HTTP 400, 403, 404 and 500). */
module Common {

  /** Milliseconds since the epoch, as JavaScript `Date` values compare. */
  type Time = int

  /** Store identifiers (Mongo ObjectIds, compared by their string form). */
  type UserId = nat
  type EventId = nat
  type RegistrationId = nat
  type MessageId = nat
  type NotificationId = nat
  type RequestId = nat

  datatype Option<T> = None | Some(value: T)

  /** Why a request ended in a 500: a schema validator refused the record on
      save, a unique index refused an insert, or a populated reference was
      null and the handler dereferenced it. */
  datatype Cause = ValidationFailed | DuplicateKey | MissingReference

  datatype Error =
    | BadRequest(message: string)   // 400
    | Forbidden(message: string)    // 403
    | NotFound(message: string)     // 404
    | ServerError(cause: Cause)     // 500

  datatype Result<T> = Ok(value: T) | Err(error: Error)

  /** A JSON body field that the handlers test for truthiness: absent
      (`undefined`/`null`) is `None`, and the empty string is falsy too. */
  predicate Truthy(s: Option<string>) {
    s.Some? && s.value != ""
  }

  /** A body field that a schema setter receives: missing, an array, or a
      value that is not an array (which the setters turn into `[]`). */
  datatype ListInput<T> = Absent | List(items: seq<T>) | NotAList

  /** No identifier occurs twice. */
  predicate NoDuplicates<T(==)>(s: seq<T>) {
    forall i, j :: 0 <= i < j < |s| ==> s[i] != s[j]
  }

  lemma NoDuplicatesTail<T>(s: seq<T>)
    requires s != [] && NoDuplicates(s)
    ensures NoDuplicates(s[1..]) && s[0] !in s[1..]
    ensures forall x :: x in s[1..] ==> x in s
  {
    assert forall i, j :: 0 <= i < j < |s[1..]| ==> s[1..][i] == s[i + 1] && s[1..][j] == s[j + 1];
  }

  /** Appending an element not yet present keeps the elements distinct. */
  lemma NoDuplicatesAppend<T>(s: seq<T>, x: T)
    ensures NoDuplicates(s) && x !in s ==> NoDuplicates(s + [x])
  {
  }

  /** Storing a key's own value again leaves a map as it was. */
  lemma MapSelfUpdate<K, V>(m: map<K, V>, k: K)
    requires k in m
    ensures m[k := m[k]] == m
  {
  }

  /** Appending an element not yet present adds that element once and
      keeps every other element as often as it was. */
  lemma AppendFresh<T(!new)>(s: seq<T>, x: T)
    requires x !in s
    ensures x in s + [x]
    ensures forall y :: y != x ==> multiset(s + [x])[y] == multiset(s)[y]
    ensures NoDuplicates(s) ==> NoDuplicates(s + [x])
  {
    assert multiset(s + [x]) == multiset(s) + multiset{x};
  }

  /** `r` is `s` with every occurrence of `x` removed: the other elements
      are kept with their multiplicities, a sequence without `x` is left
      as it is, and distinct elements stay distinct. */
  ghost predicate Removed<T(!new)>(s: seq<T>, r: seq<T>, x: T) {
    && x !in r
    && (forall y :: y in r <==> y in s && y != x)
    && (forall y :: y != x ==> multiset(r)[y] == multiset(s)[y])
    && (x !in s ==> r == s)
    && (NoDuplicates(s) ==> NoDuplicates(r))
  }

  /** `s.filter(y => y !== x)`. */
  function RemoveAll<T(==,!new)>(s: seq<T>, x: T): (r: seq<T>)
    ensures Removed(s, r, x)
  {
    if s == [] then []
    else
      var rest := RemoveAll(s[1..], x);
      RemoveAllStep(s, rest, x);
      if s[0] == x then rest else [s[0]] + rest
  }

  /** One step of the filter: the head is dropped when it is `x` and kept
      in front otherwise. */
  lemma RemoveAllStep<T(!new)>(s: seq<T>, rest: seq<T>, x: T)
    requires s != [] && Removed(s[1..], rest, x)
    ensures Removed(s, if s[0] == x then rest else [s[0]] + rest, x)
  {
    assert s == [s[0]] + s[1..];
    if NoDuplicates(s) {
      NoDuplicatesTail(s);
    }
    if s[0] != x {
      var r := [s[0]] + rest;
      assert multiset(r) == multiset{s[0]} + multiset(rest);
      if NoDuplicates(s) {
        NoDuplicatesCons(s[0], rest);
      }
    }
  }

  /** An element put in front of distinct elements that lack it keeps them
      distinct. */
  lemma NoDuplicatesCons<T>(a: T, t: seq<T>)
    requires a !in t && NoDuplicates(t)
    ensures NoDuplicates([a] + t)
  {
    var s := [a] + t;
    forall i, j | 0 <= i < j < |s| ensures s[i] != s[j] {
      assert s[j] == t[j - 1];
      if i > 0 {
        assert s[i] == t[i - 1];
      }
    }
  }

  /** `r` is `s` with the membership of `x` flipped: `x` is in `r` exactly
      when it is not in `s`, every other element is kept as often as it
      was, and no duplicate appears. */
  ghost predicate Flipped<T(!new)>(s: seq<T>, r: seq<T>, x: T) {
    && (x in r <==> x !in s)
    && (forall y :: y != x ==> multiset(r)[y] == multiset(s)[y])
    && (NoDuplicates(s) ==> NoDuplicates(r))
  }

  /** Every occurrence of `x` removed when present, `x` appended once when
      absent. */
  function Flip<T(==,!new)>(s: seq<T>, x: T): (r: seq<T>)
    ensures Flipped(s, r, x)
  {
    if x in s then RemoveAll(s, x)
    else
      AppendFresh(s, x);
      s + [x]
  }

  /** The filter keeps the order of what it keeps: it distributes over
      concatenation. */
  lemma {:induction false} RemoveAllConcat<T(!new)>(a: seq<T>, b: seq<T>, x: T)
    ensures RemoveAll(a + b, x) == RemoveAll(a, x) + RemoveAll(b, x)
  {
    if a == [] {
      assert a + b == b;
    } else {
      assert a + b == [a[0]] + (a[1..] + b);
      assert (a + b)[1..] == a[1..] + b;
      RemoveAllConcat(a[1..], b, x);
    }
  }

  /** Removing an element right after appending it to a sequence that did
      not hold it restores the sequence. */
  lemma RemoveAllAppended<T(!new)>(s: seq<T>, x: T)
    requires x !in s
    ensures RemoveAll(s + [x], x) == s
  {
    RemoveAllConcat(s, [x], x);
  }
}
