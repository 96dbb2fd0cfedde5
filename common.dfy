/** Pieces shared by the two models: optional values, Ruby's `blank?` on
    strings, ASCII `downcase`, and the validation errors Rails collects in
    `record.errors`. */
module Common {

  /** An optional value: `nil` in Ruby is `None`. */
  datatype Option<+T> = None | Some(value: T)

  /** The default Rails error messages the two models can produce. */
  datatype Message =
    | Blank                      // "can't be blank"
    | TooShort(minimum: nat)     // "is too short (minimum is N characters)"
    | TooLong(maximum: nat)      // "is too long (maximum is N characters)"
    | Taken                      // "has already been taken"
    | Invalid                    // "is invalid"
    | NotANumber                 // "is not a number"
    | GreaterThan(bound: int)    // "must be greater than N"
    | BelowMinParticipants       // "must be greater than or equal to min participants"
    | ConfirmationMismatch       // "doesn't match Password"

  /** One entry of `record.errors`: the attribute and its message. */
  datatype FieldError<F> = FieldError(field: F, message: Message)

  /** The messages recorded against one attribute. */
  function MessagesOn<F(==)>(errors: set<FieldError<F>>, field: F): (r: set<Message>)
    ensures forall m :: m in r <==> FieldError(field, m) in errors
  {
    set e | e in errors && e.field == field :: e.message
  }

  /** The ASCII characters matched by `[[:space:]]`. */
  predicate IsSpace(c: char) {
    c == ' ' || c == '\t' || c == '\n' || c == '\r' || c == '\U{B}' || c == '\U{C}'
  }

  /** `String#blank?`: empty, or nothing but white space. `nil` is modelled
      as the empty string, which Rails treats the same way here. */
  predicate IsBlank(s: string) {
    forall i :: 0 <= i < |s| ==> IsSpace(s[i])
  }

  predicate IsUpper(c: char) {
    'A' <= c <= 'Z'
  }

  function LowerChar(c: char): (d: char)
    ensures !IsUpper(d)
    ensures IsUpper(c) ==> d != c
    ensures !IsUpper(c) ==> d == c
  {
    if IsUpper(c) then (c as int + 32) as char else c
  }

  /** A string with no upper-case letter. */
  predicate IsLowerCase(s: string) {
    forall i :: 0 <= i < |s| ==> !IsUpper(s[i])
  }

  /** `String#downcase`, restricted to ASCII letters. */
  function Lower(s: string): (r: string)
    ensures |r| == |s|
    ensures forall i :: 0 <= i < |s| ==> r[i] == LowerChar(s[i])
  {
    if s == [] then [] else [LowerChar(s[0])] + Lower(s[1..])
  }

  /** Downcasing yields a lower-case string and leaves a lower-case string
      as it is, so applying it twice is the same as applying it once. */
  lemma LowerNormalises(s: string)
    ensures IsLowerCase(Lower(s))
    ensures Lower(s) == s <==> IsLowerCase(s)
    ensures Lower(Lower(s)) == Lower(s)
  {
    if !IsLowerCase(s) {
      var i :| 0 <= i < |s| && IsUpper(s[i]);
      assert Lower(s)[i] != s[i];
    }
  }

  /** Two strings are equal ignoring ASCII case exactly when their
      downcased forms are equal; downcasing either side first changes
      nothing. */
  lemma LowerAbsorbs(s: string, t: string)
    ensures Lower(Lower(s)) == Lower(t) <==> Lower(s) == Lower(t)
  {
    LowerNormalises(s);
  }
}
