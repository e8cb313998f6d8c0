/**
 Staff administration: enabling and disabling, replacing roles, creating staff
 and bootstrapping the first Manager. Names, PINs and login codes are left out;
 updating a profile replaces the roles as `SetRoles` does.
 */
module Staff {
  import opened Prelude
  import opened Uuids

  datatype Role = Manager | Cashier | Barista

  datatype Row = Row(enabled: bool, roles: set<Role>)

  type Table = map<Uuid, Row>

  datatype Error = Invalid | NotFound | Conflict | LastManager

  datatype Command =
    | SetEnabled(target: Uuid, enabled: bool, expected: bool)
    | SetRoles(target: Uuid, roles: seq<Role>)
    | Create(id: Uuid, enabled: bool, roles: seq<Role>)
    | Bootstrap(id: Uuid)

  /** What `CountActiveManagers` counts. */
  function ActiveManagers(t: Table): set<Uuid> {
    set id | id in t && t[id].enabled && Manager in t[id].roles
  }

  /** What `CountManagers` counts: disabled ones too. */
  function AllManagers(t: Table): set<Uuid> {
    set id | id in t && Manager in t[id].roles
  }

  /** `ensureManagerRemains`: an enabled Manager would stop being one and no other is left. */
  predicate NoManagerRemains(t: Table, enabled: bool, current: set<Role>, next: set<Role>) {
    enabled && Manager in current && Manager !in next && |ActiveManagers(t)| <= 1
  }

  /** A row after a command, without any check. */
  ghost function Changed(t: Table, cmd: Command): Table
    requires cmd.SetEnabled? || cmd.SetRoles? ==> cmd.target in t
  {
    match cmd
    case SetEnabled(id, enabled, _) => t[id := t[id].(enabled := enabled)]
    case SetRoles(id, roles) => t[id := t[id].(roles := Elements(roles))]
    case Create(id, enabled, roles) => t[id := Row(enabled, Elements(roles))]
    case Bootstrap(id) => t[id := Row(true, {Manager})]
  }

  /** The error a command run on its own answers, if any. */
  ghost function Refusal(t: Table, cmd: Command): Option<Error> {
    match cmd
    case SetEnabled(id, enabled, expected) =>
      if enabled == expected then Some(Invalid)
      else if id !in t then Some(NotFound)
      else if t[id].enabled != expected then Some(Conflict)
      else if !enabled && Manager in t[id].roles && |ActiveManagers(t)| <= 1 then Some(LastManager)
      else None
    case SetRoles(id, roles) =>
      if id !in t then Some(NotFound)
      else if NoManagerRemains(t, t[id].enabled, t[id].roles, Elements(roles)) then Some(LastManager)
      else None
    case Create(id, _, _) => if id in t then Some(Conflict) else None
    case Bootstrap(id) => if AllManagers(t) != {} || id in t then Some(Conflict) else None
  }

  ghost function After(t: Table, cmd: Command): Table {
    if Refusal(t, cmd).None? then Changed(t, cmd) else t
  }

  /** Taking one element from a set of at least two leaves something. */
  lemma OneLess(s: set<Uuid>, x: Uuid)
    requires x in s
    ensures |s| <= 1 <==> s - {x} == {}
  {
    assert s == (s - {x}) + {x};
    assert |s| == |s - {x}| + 1;
  }

  /** A change to one member's row can only take that member from the active Managers. */
  lemma ManagersAfter(t: Table, id: Uuid, row: Row)
    ensures ActiveManagers(t[id := row])
            == if row.enabled && Manager in row.roles then ActiveManagers(t) + {id} else ActiveManagers(t) - {id}
  {
  }

  /**
   The last-Manager refusal is exact: a command that is otherwise fine is refused
   this way if and only if it would take the only active Manager there is.
   */
  lemma RefusedExactlyForTheLastManager(t: Table, cmd: Command)
    requires cmd.SetEnabled? || cmd.SetRoles?
    requires cmd.target in t
      && (cmd.SetEnabled? ==> cmd.enabled != cmd.expected && t[cmd.target].enabled == cmd.expected)
    ensures Refusal(t, cmd) == Some(LastManager)
            <==> ActiveManagers(t) != {} && ActiveManagers(Changed(t, cmd)) == {}
  {
    ManagersAfter(t, cmd.target, Changed(t, cmd)[cmd.target]);
    if cmd.target in ActiveManagers(t) {
      OneLess(ActiveManagers(t), cmd.target);
    }
  }

  /**
   Which administration commands are accepted. A change of one member is, exactly
   when the member is there and as expected and an active Manager, if there is
   one, remains. A bootstrap is, exactly when nobody is a Manager; its member is
   then the one active Manager, and a second bootstrap is refused.
   */
  lemma AcceptedExactly(t: Table, cmd: Command)
    ensures cmd.SetEnabled? ==>
              (Refusal(t, cmd).None? <==>
                 && cmd.target in t && t[cmd.target].enabled == cmd.expected && cmd.enabled != cmd.expected
                 && (ActiveManagers(t) != {} ==> ActiveManagers(Changed(t, cmd)) != {}))
    ensures cmd.SetRoles? ==>
              (Refusal(t, cmd).None?
               <==> cmd.target in t && (ActiveManagers(t) != {} ==> ActiveManagers(Changed(t, cmd)) != {}))
    ensures cmd.Bootstrap? ==>
              && (Refusal(t, cmd).None? <==> cmd.id !in t && AllManagers(t) == {})
              && (Refusal(t, cmd).None? ==> ActiveManagers(After(t, cmd)) == {cmd.id} == AllManagers(After(t, cmd)))
              && (Refusal(t, cmd).None? ==> forall id :: Refusal(After(t, cmd), Bootstrap(id)) == Some(Conflict))
  {
    match cmd {
      case SetEnabled(id, enabled, expected) =>
        if id in t && enabled != expected && t[id].enabled == expected { RefusedExactlyForTheLastManager(t, cmd); }
      case SetRoles(id, _) => if id in t { RefusedExactlyForTheLastManager(t, cmd); }
      case Bootstrap(id) => ManagersAfter(t, id, Row(true, {Manager}));
      case _ =>
    }
  }

  /** No command run on its own takes the last active Manager. */
  lemma CommandKeepsManager(t: Table, cmd: Command)
    requires ActiveManagers(t) != {}
    ensures ActiveManagers(After(t, cmd)) != {}
  {
    if Refusal(t, cmd).None? {
      match cmd {
        case SetEnabled(id, enabled, expected) => RefusedExactlyForTheLastManager(t, cmd);
        case SetRoles(id, _) => RefusedExactlyForTheLastManager(t, cmd);
        case Create(id, enabled, roles) => ManagersAfter(t, id, Row(enabled, Elements(roles)));
        case Bootstrap(id) => ManagersAfter(t, id, Row(true, {Manager}));
      }
    }
  }

  // ---------- the handlers, run on their own ----------

  class Directory {
    var staff: Table

    constructor ()
      ensures staff == map[]
    {
      staff := map[];
    }

    /** `ClearStaffRoles` and then one `AddStaffRole` for each role; a repeated role is ignored. */
    method ReplaceRoles(target: Uuid, roles: seq<Role>)
      requires target in staff
      modifies this
      ensures staff == old(staff)[target := old(staff)[target].(roles := Elements(roles))]
    {
      staff := staff[target := staff[target].(roles := {})];
      assert Elements(roles[..0]) == {};
      for i := 0 to |roles|
        invariant staff == old(staff)[target := old(staff)[target].(roles := Elements(roles[..i]))]
      {
        assert roles[..i + 1] == roles[..i] + [roles[i]];
        assert Elements(roles[..i + 1]) == Elements(roles[..i]) + {roles[i]};
        staff := staff[target := staff[target].(roles := staff[target].roles + {roles[i]})];
      }
      assert roles[..|roles|] == roles;
    }

    method EnsureManagerRemains(enabled: bool, current: set<Role>, next: seq<Role>) returns (refused: bool)
      ensures refused <==> NoManagerRemains(staff, enabled, current, Elements(next))
    {
      if !enabled || Manager !in current || Manager in next { return false; }
      return |ActiveManagers(staff)| <= 1;
    }

    method SetEnabled(target: Uuid, enabled: bool, expected: bool) returns (refusal: Option<Error>)
      modifies this
      ensures refusal == Refusal(old(staff), Command.SetEnabled(target, enabled, expected))
      ensures staff == After(old(staff), Command.SetEnabled(target, enabled, expected))
      ensures staff == if refusal.None? then old(staff)[target := Row(enabled, old(staff)[target].roles)]
        else old(staff)
    {
      if enabled == expected { return Some(Invalid); }
      if target !in staff { return Some(NotFound); }
      if staff[target].enabled != expected { return Some(Conflict); }
      if !enabled && Manager in staff[target].roles {
        if |ActiveManagers(staff)| <= 1 { return Some(LastManager); }
      }
      staff := staff[target := staff[target].(enabled := enabled)];
      return None;
    }

    method SetRoles(target: Uuid, roles: seq<Role>) returns (refusal: Option<Error>)
      modifies this
      ensures refusal == Refusal(old(staff), Command.SetRoles(target, roles))
      ensures staff == After(old(staff), Command.SetRoles(target, roles))
      ensures staff == if refusal.None? then old(staff)[target := Row(old(staff)[target].enabled, Elements(roles))]
                       else old(staff)
    {
      if target !in staff { return Some(NotFound); }
      var refused := EnsureManagerRemains(staff[target].enabled, staff[target].roles, roles);
      if refused { return Some(LastManager); }
      ReplaceRoles(target, roles);
      return None;
    }

    method Create(id: Uuid, enabled: bool, roles: seq<Role>) returns (refusal: Option<Error>)
      modifies this
      ensures refusal == Refusal(old(staff), Command.Create(id, enabled, roles))
      ensures staff == After(old(staff), Command.Create(id, enabled, roles))
      ensures staff == if refusal.None? then old(staff)[id := Row(enabled, Elements(roles))] else old(staff)
    {
      if id in staff { return Some(Conflict); }
      staff := staff[id := Row(enabled, {})];
      ReplaceRoles(id, roles);
      assert staff == old(staff)[id := Row(enabled, Elements(roles))];
      return None;
    }

    method Bootstrap(id: Uuid) returns (refusal: Option<Error>)
      modifies this
      ensures refusal == Refusal(old(staff), Command.Bootstrap(id))
      ensures staff == After(old(staff), Command.Bootstrap(id))
      ensures staff == if refusal.None? then old(staff)[id := Row(true, {Manager})] else old(staff)
    {
      if |AllManagers(staff)| > 0 || id in staff { return Some(Conflict); }
      staff := staff[id := Row(true, {Manager})];
      return None;
    }
  }
}
