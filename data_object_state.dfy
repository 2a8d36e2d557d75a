/**
 * The `DataObjectState` enum and the string mapping of its JSON converter
 * (`DataObjectStateEnumConverter.ReadJson` and `WriteJson`).
 *
 * An enum declared without a base type, as this one is, is an `Int32`: a
 * variable of the enum type may hold any 32-bit value, not only the four declared ones, which is why both converters
 * have a `default` arm. The model therefore keeps the enum as a newtype over the
 * 32-bit range, with the declared members as constants at their declaration-order
 * values.
 */
module DataObjectStates {
  import opened Wrappers

  newtype DataObjectState = x: int | Int32Min <= x <= Int32Max

  const Pending: DataObjectState := 0
  const Moderated: DataObjectState := 1
  const Rejected: DataObjectState := 2
  const All: DataObjectState := 3

  /** The value is one of the four declared members. */
  predicate IsDeclared(st: DataObjectState) {
    Pending <= st <= All
  }

  /** The four names the converter writes. */
  const StateNames: set<string> := {"Pending", "Moderated", "Rejected", "All"}

  /**
   * `ReadJson`: the token's string value (`None` for null) to a state.
   * Matching is exact and case-sensitive; every other string, "All" and null
   * included, falls through to `All`. It never fails.
   */
  function Read(value: Option<string>): (r: DataObjectState)
    ensures IsDeclared(r)
  {
    match value
    case Some("Pending") => Pending
    case Some("Moderated") => Moderated
    case Some("Rejected") => Rejected
    case _ => All
  }

  /**
   * `WriteJson`: a state to the string handed to the writer. The arms are
   * tested in `WriteJson`'s order; any other value, undeclared ones included,
   * is written as "All".
   */
  function Write(st: DataObjectState): (r: string)
    ensures r in StateNames
  {
    if st == Moderated then "Moderated"
    else if st == Pending then "Pending"
    else if st == Rejected then "Rejected"
    else "All"
  }

  /** The state a value stands for after one write: itself if declared, `All` otherwise. */
  function Normalize(st: DataObjectState): (r: DataObjectState)
    ensures IsDeclared(r)
  {
    if IsDeclared(st) then st else All
  }

  /** Each declared state is read from exactly its own name; `All` from everything else. */
  lemma ReadExact(value: Option<string>)
    ensures Read(value) == Pending <==> value == Some("Pending")
    ensures Read(value) == Moderated <==> value == Some("Moderated")
    ensures Read(value) == Rejected <==> value == Some("Rejected")
    ensures Read(value) == All <==>
      value !in {Some("Pending"), Some("Moderated"), Some("Rejected")}
  {
  }

  /** An ASCII letter in lower case; any other character unchanged. */
  function LowerAscii(c: char): (r: char)
    ensures 'A' <= c <= 'Z' ==> r as int == c as int + 32
    ensures !('A' <= c <= 'Z') ==> r == c
  {
    if 'A' <= c <= 'Z' then (c as int + ('a' as int - 'A' as int)) as char else c
  }

  /** The two strings spell the same letters, ignoring ASCII case. */
  predicate EqualIgnoringCase(s: string, t: string) {
    |s| == |t| && forall i :: 0 <= i < |s| ==> LowerAscii(s[i]) == LowerAscii(t[i])
  }

  /**
   * Matching is case-sensitive: a string that differs from "Pending",
   * "Moderated" or "Rejected" only in the case of its letters reads as `All`.
   */
  lemma ReadIsCaseSensitive(s: string, name: string)
    requires name in {"Pending", "Moderated", "Rejected"}
    requires EqualIgnoringCase(s, name) && s != name
    ensures Read(Some(s)) == All
  {
    ReadExact(Some(s));
  }

  /** Each declared state is written as its own name; every other value as "All". */
  lemma WriteExact(st: DataObjectState)
    ensures Write(st) == "Pending" <==> st == Pending
    ensures Write(st) == "Moderated" <==> st == Moderated
    ensures Write(st) == "Rejected" <==> st == Rejected
    ensures Write(st) == "All" <==> st == All || !IsDeclared(st)
  {
  }

  /** Writing then reading gives back every declared state, and `All` for any other value. */
  lemma ReadWriteRoundTrip(st: DataObjectState)
    ensures Read(Some(Write(st))) == Normalize(st)
    ensures IsDeclared(st) ==> Read(Some(Write(st))) == st
    ensures !IsDeclared(st) ==> Read(Some(Write(st))) == All
  {
  }

  /**
   * Reading then writing gives back exactly the four state names; every other
   * string, and null, comes back as "All".
   */
  lemma WriteReadRoundTrip(value: Option<string>)
    ensures value.Some? ==> (Write(Read(value)) == value.value <==> value.value in StateNames)
    ensures (value.None? || value.value !in StateNames) ==> Write(Read(value)) == "All"
  {
  }

  /** Reading then writing is a normalisation: doing it twice is doing it once. */
  lemma WriteReadIdempotent(value: Option<string>)
    ensures Write(Read(Some(Write(Read(value))))) == Write(Read(value))
  {
  }

  /** Write's range is exactly the four names, and each is produced by a declared state. */
  lemma WriteRange(name: string)
    ensures name in StateNames <==> exists st :: IsDeclared(st) && Write(st) == name
  {
    if name in StateNames {
      WriteReadRoundTrip(Some(name));
      assert IsDeclared(Read(Some(name))) && Write(Read(Some(name))) == name;
    }
  }
}
