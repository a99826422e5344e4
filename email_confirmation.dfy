/** The wizard step for the other party's e-mail address. */
module EmailConfirmation {
  import opened Email

  /** The address typed so far and the validity flag an effect recomputes after each change. */
  datatype EmailState = EmailState(otherEmail: string, isOtherEmailValid: bool)

  /** The first render: the flag starts false and the mount effect computes it. */
  function Mount(otherEmail: string): EmailState {
    EmailState(otherEmail, IsValidEmail(otherEmail))
  }

  /** `handleEmailChange`, followed by the effect that depends on `otherEmail`. */
  function HandleEmailChange(s: EmailState, value: string): EmailState {
    s.(otherEmail := value).(isOtherEmailValid := IsValidEmail(value))
  }

  predicate NextDisabled(s: EmailState) {
    s.otherEmail == "" || !s.isOtherEmailValid
  }

  function EmailLabel(role: string): string {
    if role == "Tenant" then "Enter landlord's email:" else "Enter tenant's email:"
  }

  /** The prompt asks for the landlord's address exactly when the user is a tenant. */
  lemma EmailLabelRule(role: string)
    ensures EmailLabel(role) == "Enter landlord's email:" <==> role == "Tenant"
    ensures role != "Tenant" ==> EmailLabel(role) == "Enter tenant's email:"
  {
    assert "Enter landlord's email:"[6] != "Enter tenant's email:"[6];
  }

  /** The flag agrees with the address. */
  predicate Valid(s: EmailState) {
    s.isOtherEmailValid == IsValidEmail(s.otherEmail)
  }

  /** Every change keeps the flag in step with the address, and Next is then enabled exactly for
      an address the grammar accepts, which always has a local part, an '@' and a domain. */
  lemma ChangeKeepsValid(s: EmailState, value: string)
    ensures Valid(Mount(value)) && Valid(HandleEmailChange(s, value))
    ensures !NextDisabled(HandleEmailChange(s, value)) <==> IsValidEmail(value)
    ensures IsValidEmail(value) ==> exists i | 0 <= i < |value| :: value[i] == '@'
  {
    if IsValidEmail(value) {
      var local, domain := ValidEmailParts(value);
      assert value[|local|] == '@';
    }
  }
}
