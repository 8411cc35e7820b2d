/** `shared_definitions.py` and `shared_values.py`: the two string enums the extractors
    share. A `StrEnum` member is its value; building one from a string that is no
    member's value (what pydantic does for a field of enum type) fails. */
module SharedDefinitions {
  import opened Wrappers
  import opened Exceptions

  datatype PlayerRole = Goalkeeper | Defender | Midfielder | Attacker

  /** The one-letter value stored in the database. */
  function RoleValue(role: PlayerRole): string {
    match role
    case Goalkeeper => "G"
    case Defender => "D"
    case Midfielder => "M"
    case Attacker => "A"
  }

  /** `PlayerRole(value)`, as a validated field does it. */
  function ParseRole(value: string): (r: Result<PlayerRole, Error>)
    ensures r.Success? <==> value in {"G", "D", "M", "A"}
    ensures r.Success? ==> RoleValue(r.value) == value
    ensures r.Failure? ==> r.error.ValidationError?
  {
    if value == "G" then Success(Goalkeeper)
    else if value == "D" then Success(Defender)
    else if value == "M" then Success(Midfielder)
    else if value == "A" then Success(Attacker)
    else Failure(ValidationError("invalid player role: " + value))
  }

  /** Writing a role and reading it back gives the same role. */
  lemma RoleRoundTrip(role: PlayerRole)
    ensures ParseRole(RoleValue(role)) == Success(role)
  {
  }

  datatype Status = Completed | Ongoing | Upcoming

  function StatusValue(s: Status): string {
    match s
    case Completed => "completed"
    case Ongoing => "ongoing"
    case Upcoming => "upcoming"
  }

  function ParseStatus(value: string): (r: Result<Status, Error>)
    ensures r.Success? <==> value in {"completed", "ongoing", "upcoming"}
    ensures r.Success? ==> StatusValue(r.value) == value
    ensures r.Failure? ==> r.error.ValidationError?
  {
    if value == "completed" then Success(Completed)
    else if value == "ongoing" then Success(Ongoing)
    else if value == "upcoming" then Success(Upcoming)
    else Failure(ValidationError("invalid status: " + value))
  }

  lemma StatusRoundTrip(s: Status)
    ensures ParseStatus(StatusValue(s)) == Success(s)
  {
  }
}
