/** The Team document of server/models/Team.js. */
module Teams {
  import opened Common

  /** The purse a team starts with when none is supplied (100 crore). */
  const DEFAULT_PURSE: int := 1000000000

  /** A franchise. `playersBought` lists the players it owns in the order it
      acquired them. */
  datatype Team = Team(
    name: string,
    userId: Option<UserId>,
    purseRemaining: int,
    totalRating: int,
    playersBought: seq<PlayerId>,
    logo: string,
    shortCode: string)

  /** Why the schema refuses to create a team. */
  datatype TeamError = TeamNameRequired | ShortCodeRequired

  /** Creating a team document from its submitted fields; `purse` is `None`
      when the caller leaves the purse to its default. */
  function NewTeam(name: string, shortCode: string, userId: Option<UserId>, purse: Option<int>)
    : (r: Result<Team, TeamError>)
    ensures r.Ok? <==> name != "" && shortCode != ""
    ensures name == "" ==> r == Err(TeamNameRequired)
    ensures name != "" && shortCode == "" ==> r == Err(ShortCodeRequired)
    ensures r.Ok? ==>
      && r.value.name == name
      && r.value.shortCode == shortCode
      && r.value.userId == userId
      && (purse.None? ==> r.value.purseRemaining == DEFAULT_PURSE)
      && (purse.Some? ==> r.value.purseRemaining == purse.value)
      && r.value.totalRating == 0
      && r.value.playersBought == []
      && r.value.logo == ""
  {
    if name == "" then Err(TeamNameRequired)
    else if shortCode == "" then Err(ShortCodeRequired)
    else
      var p := match purse case Some(v) => v case None => DEFAULT_PURSE;
      Ok(Team(name, userId, p, 0, [], "", shortCode))
  }

  /** The unique index on `name`: no two teams share a name. */
  ghost predicate UniqueNames(teams: map<TeamId, Team>) {
    forall a, b :: a in teams && b in teams && a != b ==> teams[a].name != teams[b].name
  }
}
