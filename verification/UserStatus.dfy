/** The account status column and the two notions of "active" the services use. */
module UserStatus {
  import opened Base

  const ACTIVE := "active"
  const DISABLED := "disabled"
  const RESIGNED := "resigned"

  function NormalizeUserStatus(status: Option<string>): string {
    if !Truthy(status) || status.value == "1" || status.value == ACTIVE then ACTIVE
    else if status.value == "0" || status.value == RESIGNED then RESIGNED
    else if status.value == DISABLED then DISABLED
    else ACTIVE
  }

  predicate IsUserActive(status: Option<string>) {
    NormalizeUserStatus(status) == ACTIVE
  }

  /** The status values the role fan-out selects in its database query. */
  predicate IsListedActive(status: Option<string>) {
    status.Some? && status.value in {"active", "Active", "ACTIVE"}
  }

  /** An account is inactive for exactly three stored values. */
  lemma InactiveExactly(status: Option<string>)
    ensures !IsUserActive(status) <==> status.Some? && status.value in {"0", RESIGNED, DISABLED}
  {
    assert RESIGNED != ACTIVE && DISABLED != ACTIVE && RESIGNED != DISABLED;
  }

  /** Which of the three column values each given status is stored as. */
  lemma NormalizesExactly(status: Option<string>)
    ensures NormalizeUserStatus(status) == "resigned" <==> status in {Some("0"), Some("resigned")}
    ensures NormalizeUserStatus(status) == "disabled" <==> status == Some("disabled")
    ensures NormalizeUserStatus(status) == "active" <==>
      status !in {Some("0"), Some("resigned"), Some("disabled")}
  {
    assert "resigned" != "active" && "disabled" != "active" && "resigned" != "disabled";
    assert "0" != "active" && "1" != "resigned" && "1" != "0" && "0" != "disabled" && "1" != "disabled";
  }

  /** Every status the fan-out query selects passes the in-memory filter after it. */
  lemma ListedIsActive(status: Option<string>)
    requires IsListedActive(status)
    ensures IsUserActive(status)
  {
    InactiveExactly(status);
    assert "active" != "0" && "Active" != "0" && "ACTIVE" != "0";
    assert status.value[0] in {'a', 'A'};
    assert RESIGNED[0] == 'r' && DISABLED[0] == 'd' && "0"[0] == '0';
  }
}
