/** The body of a transfer request and the bean-validation constraints declared on it. */
module TransferRequestModel {
  import opened Common
  import opened JavaStrings

  /** `TransferRequest`; every field may be null. */
  datatype TransferRequest = TransferRequest(
    fromAccountId: Option<string>,
    toAccountId: Option<string>,
    amount: Option<Cents>,
    description: Option<string>)
  {
    /** `isValidTransfer`: both ids present and different. */
    predicate IsValidTransfer() {
      fromAccountId.Some? && toAccountId.Some? && fromAccountId.value != toAccountId.value
    }
  }

  /** `isValidTransfer` is false when the source id is null. */
  lemma NullSourceIsNotValid(r: TransferRequest)
    requires r.fromAccountId.None?
    ensures !r.IsValidTransfer()
  {
  }

  /** `isValidTransfer` is false when the destination id is null. */
  lemma NullDestinationIsNotValid(r: TransferRequest)
    requires r.toAccountId.None?
    ensures !r.IsValidTransfer()
  {
  }

  /** `isValidTransfer` holds exactly for two present ids that differ. */
  lemma ValidTransferIff(r: TransferRequest)
    ensures r.IsValidTransfer() <==>
      (exists f, t :: r.fromAccountId == Some(f) && r.toAccountId == Some(t) && f != t)
  {
    if r.IsValidTransfer() {
      var f, t := r.fromAccountId.value, r.toAccountId.value;
      assert r.fromAccountId == Some(f) && r.toAccountId == Some(t) && f != t;
    }
  }

  /** The id pattern `^[a-fA-F0-9\-]{36}$` allows 36 characters. */
  const AccountIdLength: nat := 36

  /** `@DecimalMin("0.01")`: the smallest amount, one cent. */
  const MinimumAmount: Cents := 1

  /** A character the id pattern `[a-fA-F0-9\-]` accepts. */
  predicate IsIdChar(c: char) {
    ('a' <= c <= 'f') || ('A' <= c <= 'F') || ('0' <= c <= '9') || c == '-'
  }

  /** `@Pattern(regexp = "^[a-fA-F0-9\\-]{36}$")`. */
  predicate MatchesIdPattern(s: string) {
    |s| == AccountIdLength && forall i | 0 <= i < |s| :: IsIdChar(s[i])
  }

  /** `@NotBlank`: present and not blank after trimming. */
  predicate NotBlank(s: Option<string>) {
    s.Some? && !IsBlank(s.value)
  }

  /**
   * Every constraint annotated on the fields: both ids `@NotBlank` and matching the
   * pattern (a null id passes `@Pattern` but not `@NotBlank`), and the amount
   * `@NotNull` and at least 0.01.
   */
  predicate SatisfiesConstraints(r: TransferRequest) {
    && NotBlank(r.fromAccountId) && MatchesIdPattern(r.fromAccountId.value)
    && NotBlank(r.toAccountId) && MatchesIdPattern(r.toAccountId.value)
    && r.amount.Some? && r.amount.value >= MinimumAmount
  }

  /** An id of the required shape is never blank: it is 36 characters, none of them trimmable. */
  lemma {:induction false} PatternIdIsNotBlank(s: string)
    requires MatchesIdPattern(s)
    ensures !IsBlank(s)
  {
    BlankIffAllTrimmable(s);
    assert !IsTrimmable(s[0]);
  }
}
