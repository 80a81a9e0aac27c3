/**
 * The admin team manager: a list of teams with an add form and an edit form.
 * Team and player ids, which the page draws from the clock and a random
 * source, and the answer to the delete confirmation are inputs.
 */
module AdminTeams {

  import opened Wrappers
  import Text

  datatype Player = Player(id: int, name: string, email: string, handicap: int, mulligansLeft: int)
  datatype Team = Team(id: int, name: string, players: seq<Player>, handicap: int)

  /** A player in the add form, before it has an id. */
  datatype DraftPlayer = DraftPlayer(name: string, email: string, handicap: int, mulligansLeft: int)
  datatype DraftTeam = DraftTeam(name: string, handicap: int, players: seq<DraftPlayer>)

  datatype Manager = Manager(
    teams: seq<Team>,
    isAddingTeam: bool,
    newTeam: DraftTeam,
    editingTeamId: Option<int>,
    editingTeam: Option<Team>)

  const TeamNameRequired: string := "Team name is required"
  const PlayerFieldsRequired: string := "Player name and email are required"

  const BlankDraftPlayer: DraftPlayer := DraftPlayer("", "", 0, 3)

  /** The add form as it starts and as it is reset: no name, handicap 0, two blank players with 3 mulligans. */
  const EmptyDraft: DraftTeam := DraftTeam("", 0, [BlankDraftPlayer, BlankDraftPlayer])

  /** The outcome of a handler: the new state, and the alert it raised, if any. */
  datatype Step = Step(state: Manager, alert: Option<string>)

  /** The form check shared by add and save: a team name, then a name and an email for every player. */
  function Validate(name: string, players: seq<DraftPlayer>): (r: Option<string>)
    ensures Text.IsBlank(name) ==> r == Some(TeamNameRequired)
    ensures !Text.IsBlank(name) ==>
      (r == Some(PlayerFieldsRequired) <==>
        exists i :: 0 <= i < |players| && (Text.IsBlank(players[i].name) || Text.IsBlank(players[i].email)))
    ensures r.None? <==>
      && !Text.IsBlank(name)
      && forall i :: 0 <= i < |players| ==> !Text.IsBlank(players[i].name) && !Text.IsBlank(players[i].email)
  {
    if Text.IsBlank(name) then Some(TeamNameRequired)
    else if exists i :: 0 <= i < |players| && (Text.IsBlank(players[i].name) || Text.IsBlank(players[i].email)) then
      Some(PlayerFieldsRequired)
    else None
  }

  /** A team's players as the form fields show them, without their ids. */
  function Drafts(ps: seq<Player>): (r: seq<DraftPlayer>)
    ensures |r| == |ps|
    ensures forall i :: 0 <= i < |ps| ==>
      r[i] == DraftPlayer(ps[i].name, ps[i].email, ps[i].handicap, ps[i].mulligansLeft)
  {
    seq(|ps|, i requires 0 <= i < |ps| => DraftPlayer(ps[i].name, ps[i].email, ps[i].handicap, ps[i].mulligansLeft))
  }

  /** The draft's players with the ids they are given. */
  function WithIds(ps: seq<DraftPlayer>, playerId: nat -> int): (r: seq<Player>)
    ensures |r| == |ps|
    ensures forall i :: 0 <= i < |ps| ==>
      r[i] == Player(playerId(i), ps[i].name, ps[i].email, ps[i].handicap, ps[i].mulligansLeft)
  {
    seq(|ps|, i requires 0 <= i < |ps| =>
      Player(playerId(i), ps[i].name, ps[i].email, ps[i].handicap, ps[i].mulligansLeft))
  }

  /** Giving draft players ids and reading the form fields back loses nothing. */
  lemma DraftsOfWithIds(ps: seq<DraftPlayer>, playerId: nat -> int)
    ensures Drafts(WithIds(ps, playerId)) == ps
  {
  }

  /** `handleAddTeam`: a valid draft is appended as one new team and the form is reset. */
  function AddTeam(m: Manager, teamId: int, playerId: nat -> int): (r: Step)
    ensures var v := Validate(m.newTeam.name, m.newTeam.players);
      v.Some? ==> r == Step(m, v)
    ensures Validate(m.newTeam.name, m.newTeam.players).None? ==> r.alert.None?
    ensures r.alert.None? ==>
      && r.state.teams == m.teams + [Team(teamId, m.newTeam.name, WithIds(m.newTeam.players, playerId), m.newTeam.handicap)]
      && r.state.newTeam == EmptyDraft
      && !r.state.isAddingTeam
      && r.state.editingTeamId == m.editingTeamId
      && r.state.editingTeam == m.editingTeam
  {
    var v := Validate(m.newTeam.name, m.newTeam.players);
    if v.Some? then Step(m, v)
    else
      var team := Team(teamId, m.newTeam.name, WithIds(m.newTeam.players, playerId), m.newTeam.handicap);
      Step(m.(teams := m.teams + [team], newTeam := EmptyDraft, isAddingTeam := false), None)
  }

  /** A successful add grows the list by one and keeps every earlier team in place. */
  lemma AddTeamAppends(m: Manager, teamId: int, playerId: nat -> int)
    requires AddTeam(m, teamId, playerId).alert.None?
    ensures |AddTeam(m, teamId, playerId).state.teams| == |m.teams| + 1
    ensures AddTeam(m, teamId, playerId).state.teams[..|m.teams|] == m.teams
    ensures AddTeam(m, teamId, playerId).state.teams[|m.teams|].id == teamId
    ensures AddTeam(m, teamId, playerId).state.teams[|m.teams|].name == m.newTeam.name
  {
    assert (m.teams + [Team(teamId, m.newTeam.name, WithIds(m.newTeam.players, playerId), m.newTeam.handicap)])[..|m.teams|] == m.teams;
  }

  /** Deleting a freshly added team, under a new id, gives back the list as it was. */
  lemma AddThenDelete(m: Manager, teamId: int, playerId: nat -> int)
    requires AddTeam(m, teamId, playerId).alert.None?
    requires forall i :: 0 <= i < |m.teams| ==> m.teams[i].id != teamId
    ensures DeleteTeam(AddTeam(m, teamId, playerId).state, teamId, true).teams == m.teams
  {
    var t := Team(teamId, m.newTeam.name, WithIds(m.newTeam.players, playerId), m.newTeam.handicap);
    var teams := m.teams + [t];
    assert teams[..|teams| - 1] == m.teams;
    RemoveAbsentId(m.teams, teamId);
  }

  /** A team whose name is only white space is never added. */
  lemma BlankNameRejected(m: Manager, teamId: int, playerId: nat -> int)
    requires Text.IsBlank(m.newTeam.name)
    ensures AddTeam(m, teamId, playerId) == Step(m, Some(TeamNameRequired))
  {
  }

  /** `teams.map(...)`: every team with the edited team's id is replaced by it. */
  function ReplaceById(teams: seq<Team>, edited: Team): (r: seq<Team>)
    ensures |r| == |teams|
    ensures forall i :: 0 <= i < |teams| ==> r[i] == if teams[i].id == edited.id then edited else teams[i]
  {
    seq(|teams|, i requires 0 <= i < |teams| => if teams[i].id == edited.id then edited else teams[i])
  }

  /** `handleEditStart`: the team is copied into the edit form. */
  function StartEdit(m: Manager, team: Team): (r: Manager)
    ensures r.editingTeamId == Some(team.id) && r.editingTeam == Some(team)
    ensures r == m.(editingTeamId := r.editingTeamId, editingTeam := r.editingTeam)
  {
    m.(editingTeamId := Some(team.id), editingTeam := Some(team))
  }

  /** `handleSaveEdit`: a valid edit replaces the teams with its id and closes the edit form. */
  function SaveEdit(m: Manager): (r: Step)
    ensures m.editingTeam.None? ==> r == Step(m, None)
    ensures m.editingTeam.Some? ==>
      var e := m.editingTeam.value;
      var v := Validate(e.name, Drafts(e.players));
      && (v.Some? ==> r == Step(m, v))
      && (v.None? ==> r == Step(m.(teams := ReplaceById(m.teams, e), editingTeamId := None, editingTeam := None), None))
  {
    match m.editingTeam
    case None => Step(m, None)
    case Some(e) =>
      var v := Validate(e.name, Drafts(e.players));
      if v.Some? then Step(m, v)
      else Step(m.(teams := ReplaceById(m.teams, e), editingTeamId := None, editingTeam := None), None)
  }

  /** Saving an edit keeps the list's length and order, and touches only teams with the edited id. */
  lemma SaveEditReplacesOnlyItsTeam(m: Manager, i: int)
    requires m.editingTeam.Some?
    requires SaveEdit(m).alert.None?
    requires 0 <= i < |m.teams|
    ensures |SaveEdit(m).state.teams| == |m.teams|
    ensures m.teams[i].id != m.editingTeam.value.id ==> SaveEdit(m).state.teams[i] == m.teams[i]
    ensures m.teams[i].id == m.editingTeam.value.id ==> SaveEdit(m).state.teams[i] == m.editingTeam.value
    ensures SaveEdit(m).state.editingTeam.None? && SaveEdit(m).state.editingTeamId.None?
  {
  }

  /** `handleCancelEdit`: the edit form closes and the list is untouched. */
  function CancelEdit(m: Manager): (r: Manager)
    ensures r.editingTeamId.None? && r.editingTeam.None?
    ensures r.teams == m.teams && r.newTeam == m.newTeam && r.isAddingTeam == m.isAddingTeam
  {
    m.(editingTeamId := None, editingTeam := None)
  }

  /** `teams.filter(...)`: the teams whose id differs, in order. */
  function RemoveById(teams: seq<Team>, id: int): (r: seq<Team>)
    ensures |r| <= |teams|
    ensures forall i :: 0 <= i < |r| ==> r[i].id != id
    decreases |teams|
  {
    if |teams| == 0 then []
    else
      var last := teams[|teams| - 1];
      RemoveById(teams[..|teams| - 1], id) + (if last.id != id then [last] else [])
  }

  /** How many teams carry the id. */
  function CountId(teams: seq<Team>, id: int): nat
    decreases |teams|
  {
    if |teams| == 0 then 0
    else CountId(teams[..|teams| - 1], id) + (if teams[|teams| - 1].id == id then 1 else 0)
  }

  /** Removing a team drops exactly the teams with that id. */
  lemma {:induction false} RemoveByIdCount(teams: seq<Team>, id: int)
    ensures |RemoveById(teams, id)| + CountId(teams, id) == |teams|
    decreases |teams|
  {
    if |teams| > 0 {
      RemoveByIdCount(teams[..|teams| - 1], id);
    }
  }

  /** Removing an id no team carries changes nothing. */
  lemma {:induction false} RemoveAbsentId(teams: seq<Team>, id: int)
    requires forall i :: 0 <= i < |teams| ==> teams[i].id != id
    ensures RemoveById(teams, id) == teams
    decreases |teams|
  {
    if |teams| > 0 {
      RemoveAbsentId(teams[..|teams| - 1], id);
      assert teams == teams[..|teams| - 1] + [teams[|teams| - 1]];
    }
  }

  /** A team survives removal exactly when it was on the list under another id. */
  lemma {:induction false} RemoveByIdMembers(teams: seq<Team>, id: int, t: Team)
    ensures t in RemoveById(teams, id) <==> t in teams && t.id != id
    decreases |teams|
  {
    if |teams| > 0 {
      var prefix := teams[..|teams| - 1];
      RemoveByIdMembers(prefix, id, t);
      assert teams == prefix + [teams[|teams| - 1]];
    }
  }

  /** Removal works piece by piece: the survivors of a joined list are the survivors of each part, in order. */
  lemma {:induction false} RemoveByIdAppend(a: seq<Team>, b: seq<Team>, id: int)
    ensures RemoveById(a + b, id) == RemoveById(a, id) + RemoveById(b, id)
    decreases |b|
  {
    if |b| > 0 {
      var b' := b[..|b| - 1];
      var last := b[|b| - 1];
      assert (a + b)[..|a + b| - 1] == a + b';
      RemoveByIdAppend(a, b', id);
    } else {
      assert a + b == a;
    }
  }

  /**
   * `filter` keeps the survivors in their order: the first team is kept at the
   * front exactly when its id differs, and the rest are filtered the same way.
   */
  lemma RemoveByIdCons(t: Team, teams: seq<Team>, id: int)
    ensures RemoveById([t] + teams, id) == (if t.id != id then [t] else []) + RemoveById(teams, id)
  {
    RemoveByIdAppend([t], teams, id);
    assert [t][..0] == [];
  }

  /** The first team's fate, for a list of any length. */
  lemma RemoveByIdHead(teams: seq<Team>, id: int)
    ensures |teams| > 0 ==>
      RemoveById(teams, id) == (if teams[0].id != id then [teams[0]] else []) + RemoveById(teams[1..], id)
  {
    if |teams| > 0 {
      assert teams == [teams[0]] + teams[1..];
      RemoveByIdCons(teams[0], teams[1..], id);
    }
  }

  /** `handleDeleteTeam`: only a confirmed delete changes the list. */
  function DeleteTeam(m: Manager, id: int, confirmed: bool): (r: Manager)
    ensures !confirmed ==> r == m
    ensures confirmed && |m.teams| > 0 ==>
      r.teams == (if m.teams[0].id != id then [m.teams[0]] else []) + RemoveById(m.teams[1..], id)
    ensures confirmed ==> r == m.(teams := RemoveById(m.teams, id))
    ensures forall t :: t in r.teams <==> t in m.teams && (confirmed ==> t.id != id)
  {
    forall t ensures t in RemoveById(m.teams, id) <==> t in m.teams && t.id != id {
      RemoveByIdMembers(m.teams, id, t);
    }
    RemoveByIdHead(m.teams, id);
    if confirmed then m.(teams := RemoveById(m.teams, id)) else m
  }

  /** The editable fields of a player. */
  datatype PlayerField = Name(name: string) | Email(email: string) | Handicap(handicap: int) | MulligansLeft(mulligansLeft: int)

  function SetDraftField(p: DraftPlayer, f: PlayerField): DraftPlayer
  {
    match f
    case Name(v) => p.(name := v)
    case Email(v) => p.(email := v)
    case Handicap(v) => p.(handicap := v)
    case MulligansLeft(v) => p.(mulligansLeft := v)
  }

  function SetPlayerField(p: Player, f: PlayerField): Player
  {
    match f
    case Name(v) => p.(name := v)
    case Email(v) => p.(email := v)
    case Handicap(v) => p.(handicap := v)
    case MulligansLeft(v) => p.(mulligansLeft := v)
  }

  /** `handleNewPlayerChange`: one field of one draft player changes. */
  function NewPlayerChange(m: Manager, index: nat, f: PlayerField): (r: Manager)
    requires index < |m.newTeam.players|
    ensures |r.newTeam.players| == |m.newTeam.players|
    ensures forall i :: 0 <= i < |m.newTeam.players| && i != index ==> r.newTeam.players[i] == m.newTeam.players[i]
    ensures r.newTeam.players[index] == SetDraftField(m.newTeam.players[index], f)
    ensures r.newTeam.name == m.newTeam.name && r.newTeam.handicap == m.newTeam.handicap
    ensures r == m.(newTeam := r.newTeam)
  {
    var ps := m.newTeam.players;
    m.(newTeam := m.newTeam.(players := ps[index := SetDraftField(ps[index], f)]))
  }

  /** `handleEditPlayerChange`: one field of one player in the edit form changes; nothing happens without one. */
  function EditPlayerChange(m: Manager, index: nat, f: PlayerField): (r: Manager)
    requires m.editingTeam.Some? ==> index < |m.editingTeam.value.players|
    ensures m.editingTeam.None? ==> r == m
    ensures m.editingTeam.Some? ==>
      && r.editingTeam.Some?
      && var before := m.editingTeam.value;
         var after := r.editingTeam.value;
         && |after.players| == |before.players|
         && (forall i :: 0 <= i < |before.players| && i != index ==> after.players[i] == before.players[i])
         && after.players[index] == SetPlayerField(before.players[index], f)
         && after.id == before.id && after.name == before.name && after.handicap == before.handicap
    ensures r == m.(editingTeam := r.editingTeam)
  {
    match m.editingTeam
    case None => m
    case Some(e) =>
      m.(editingTeam := Some(e.(players := e.players[index := SetPlayerField(e.players[index], f)])))
  }

  /** The editable team-level fields. */
  datatype TeamField = TeamName(name: string) | TeamHandicap(handicap: int)

  /** `handleNewTeamChange`: one team-level field of the add form changes; its players stay. */
  function NewTeamChange(m: Manager, f: TeamField): (r: Manager)
    ensures r.newTeam.players == m.newTeam.players
    ensures r.newTeam.name == (if f.TeamName? then f.name else m.newTeam.name)
    ensures r.newTeam.handicap == (if f.TeamHandicap? then f.handicap else m.newTeam.handicap)
    ensures r == m.(newTeam := r.newTeam)
  {
    match f
    case TeamName(v) => m.(newTeam := m.newTeam.(name := v))
    case TeamHandicap(v) => m.(newTeam := m.newTeam.(handicap := v))
  }

  /** `handleEditTeamChange`: one team-level field of the edit form changes; nothing happens without one. */
  function EditTeamChange(m: Manager, f: TeamField): (r: Manager)
    ensures m.editingTeam.None? ==> r == m
    ensures m.editingTeam.Some? ==>
      && r.editingTeam.Some?
      && var before := m.editingTeam.value;
         var after := r.editingTeam.value;
         && after.id == before.id && after.players == before.players
         && after.name == (if f.TeamName? then f.name else before.name)
         && after.handicap == (if f.TeamHandicap? then f.handicap else before.handicap)
    ensures r == m.(editingTeam := r.editingTeam)
  {
    match m.editingTeam
    case None => m
    case Some(e) =>
      match f
      case TeamName(v) => m.(editingTeam := Some(e.(name := v)))
      case TeamHandicap(v) => m.(editingTeam := Some(e.(handicap := v)))
  }

  /** Opening an edit and cancelling it, with no edit open before, leaves the manager as it was. */
  lemma StartThenCancel(m: Manager, team: Team)
    requires m.editingTeamId.None? && m.editingTeam.None?
    ensures CancelEdit(StartEdit(m, team)) == m
  {
  }

  /** Edits made in the form reach the list only through a valid save: before it, the list is as it was. */
  lemma EditsStayInTheForm(m: Manager, index: nat, pf: PlayerField, tf: TeamField)
    requires m.editingTeam.Some? ==> index < |m.editingTeam.value.players|
    ensures EditTeamChange(EditPlayerChange(m, index, pf), tf).teams == m.teams
    ensures CancelEdit(EditTeamChange(EditPlayerChange(m, index, pf), tf)).teams == m.teams
  {
  }

  /** Setting a field touches that field alone. */
  lemma SetPlayerFieldTouchesOneField(p: Player, f: PlayerField)
    ensures SetPlayerField(p, f).id == p.id
    ensures !f.Name? ==> SetPlayerField(p, f).name == p.name
    ensures !f.Email? ==> SetPlayerField(p, f).email == p.email
    ensures !f.Handicap? ==> SetPlayerField(p, f).handicap == p.handicap
    ensures !f.MulligansLeft? ==> SetPlayerField(p, f).mulligansLeft == p.mulligansLeft
  {
  }
}
