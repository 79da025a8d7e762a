/** The two-way index of live groups: internal/api/realtime.go. */
module GroupRegistry {

  datatype Event = Added(group: string, connection: string) | Removed(connection: string)

  /** Membership told by the events alone: added, and not removed since. */
  ghost predicate Belongs(history: seq<Event>, group: string, connection: string) {
    if history == [] then false
    else
      match history[|history| - 1]
      case Added(g, c) => (g == group && c == connection) || Belongs(history[..|history| - 1], group, connection)
      case Removed(c) => c != connection && Belongs(history[..|history| - 1], group, connection)
  }

  function At(index: map<string, set<string>>, key: string): set<string> {
    if key in index then index[key] else {}
  }

  ghost predicate NoneEmpty(index: map<string, set<string>>) {
    forall key | key in index :: index[key] != {}
  }

  /** Both indexes hold exactly the membership that the history tells, and no empty set. */
  ghost predicate Represents(groups: map<string, set<string>>, reverse: map<string, set<string>>, history: seq<Event>) {
    && NoneEmpty(groups) && NoneEmpty(reverse)
    && (forall g, c :: c in At(groups, g) <==> Belongs(history, g, c))
    && (forall g, c :: g in At(reverse, c) <==> Belongs(history, g, c))
  }

  class Registry {
    var groups: map<string, set<string>>
    var reverse: map<string, set<string>>
    ghost var history: seq<Event>

    ghost predicate Valid()
      reads this
    {
      Represents(groups, reverse, history)
    }

    constructor ()
      ensures Valid() && history == []
    {
      groups, reverse, history := map[], map[], [];
    }

    method Add(group: string, connection: string)
      requires Valid()
      modifies this
      ensures Valid() && history == old(history) + [Added(group, connection)]
    {
      AdditionRepresents(groups, reverse, history, group, connection);
      groups := Join(groups, group, connection);
      reverse := Join(reverse, connection, group);
      history := history + [Added(group, connection)];
    }

    /** Lists each member of the group once, in an order of the map's choosing. */
    method Members(group: string) returns (result: seq<string>)
      requires Valid()
      ensures forall c :: c in result <==> Belongs(history, group, c)
      ensures forall i, j | 0 <= i < j < |result| :: result[i] != result[j]
    {
      result := [];
      var remaining := At(groups, group);
      while remaining != {}
        invariant remaining <= At(groups, group)
        invariant forall c :: c in result <==> c in At(groups, group) && c !in remaining
        invariant forall i, j | 0 <= i < j < |result| :: result[i] != result[j]
        decreases remaining
      {
        var c :| c in remaining;
        result := result + [c];
        remaining := remaining - {c};
      }
    }

    method Remove(connection: string)
      requires Valid()
      modifies this
      ensures Valid() && history == old(history) + [Removed(connection)]
    {
      var left := LeaveAll(groups, At(reverse, connection), connection);
      RemovalRepresents(groups, reverse, history, left, connection);
      groups := left;
      reverse := reverse - {connection};
      history := history + [Removed(connection)];
    }
  }

  /** Walks the connection's own groups, and drops those it leaves empty. */
  method LeaveAll(groups: map<string, set<string>>, joined: set<string>, connection: string)
    returns (left: map<string, set<string>>)
    requires NoneEmpty(groups)
    ensures NoneEmpty(left) && Left(groups, left, joined, connection)
  {
    left := groups;
    var remaining := joined;
    while remaining != {}
      invariant remaining <= joined && NoneEmpty(left)
      invariant Left(groups, left, joined - remaining, connection)
      decreases remaining
    {
      var group :| group in remaining;
      LeaveStep(groups, left, joined - remaining, group, connection);
      assert joined - remaining + {group} == joined - (remaining - {group});
      left := Leave(left, group, connection);
      remaining := remaining - {group};
    }
  }

  /** Adds one member to a set of the index, which it makes if there is none. */
  function Join(index: map<string, set<string>>, key: string, member: string): map<string, set<string>> {
    index[key := At(index, key) + {member}]
  }

  lemma AdditionRepresents(groups: map<string, set<string>>, reverse: map<string, set<string>>, history: seq<Event>,
                           group: string, connection: string)
    requires Represents(groups, reverse, history)
    ensures Represents(Join(groups, group, connection), Join(reverse, connection, group),
                       history + [Added(group, connection)])
  {
    var longer := history + [Added(group, connection)];
    assert longer[..|longer| - 1] == history;
    forall g, c
      ensures c in At(Join(groups, group, connection), g) <==> Belongs(longer, g, c)
      ensures g in At(Join(reverse, connection, group), c) <==> Belongs(longer, g, c)
    {
      assert c in At(groups, g) <==> Belongs(history, g, c);
      assert g in At(reverse, c) <==> Belongs(history, g, c);
    }
  }

  /** Deletes one member, and the group with its last member. */
  function Leave(groups: map<string, set<string>>, group: string, connection: string): map<string, set<string>> {
    var left := At(groups, group) - {connection};
    if left == {} then groups - {group} else groups[group := left]
  }

  /** The connection has left these groups, and nothing else has changed. */
  ghost predicate Left(before: map<string, set<string>>, groups: map<string, set<string>>, done: set<string>,
                       connection: string) {
    forall g :: At(groups, g) == if g in done then At(before, g) - {connection} else At(before, g)
  }

  lemma LeaveStep(before: map<string, set<string>>, groups: map<string, set<string>>, done: set<string>,
                  group: string, connection: string)
    requires NoneEmpty(groups) && Left(before, groups, done, connection)
    ensures NoneEmpty(Leave(groups, group, connection))
    ensures Left(before, Leave(groups, group, connection), done + {group}, connection)
  {
  }

  lemma RemovalRepresents(groups: map<string, set<string>>, reverse: map<string, set<string>>, history: seq<Event>,
                          after: map<string, set<string>>, connection: string)
    requires Represents(groups, reverse, history)
    requires NoneEmpty(after) && Left(groups, after, At(reverse, connection), connection)
    ensures Represents(after, reverse - {connection}, history + [Removed(connection)])
  {
    var longer := history + [Removed(connection)];
    assert longer[..|longer| - 1] == history;
    forall g, c
      ensures c in At(after, g) <==> Belongs(longer, g, c)
    {
      assert connection in At(groups, g) <==> Belongs(history, g, connection);
      assert g in At(reverse, connection) <==> Belongs(history, g, connection);
    }
    forall g, c
      ensures g in At(reverse - {connection}, c) <==> Belongs(longer, g, c)
    {
      assert g in At(reverse, c) <==> Belongs(history, g, c);
    }
  }

  // ----- laws -----

  /** The two indexes are inverse to each other, and the history leaves no freedom in them. */
  lemma IndexesDetermined(groups: map<string, set<string>>, reverse: map<string, set<string>>,
                          groups': map<string, set<string>>, reverse': map<string, set<string>>, history: seq<Event>)
    requires Represents(groups, reverse, history) && Represents(groups', reverse', history)
    ensures forall g, c :: c in At(groups, g) <==> g in At(reverse, c)
    ensures groups == groups' && reverse == reverse'
  {
    SameIndex(groups, groups');
    SameIndex(reverse, reverse');
  }

  lemma SameIndex(a: map<string, set<string>>, b: map<string, set<string>>)
    requires NoneEmpty(a) && NoneEmpty(b)
    requires forall key, x :: x in At(a, key) <==> x in At(b, key)
    ensures a == b
  {
    forall key
      ensures At(a, key) == At(b, key)
      ensures key in a <==> key in b
    {
      assert At(a, key) == At(b, key);
      assert key in a <==> At(a, key) != {};
      assert key in b <==> At(b, key) != {};
    }
    forall key | key in a
      ensures a[key] == b[key]
    {
      assert a[key] == At(a, key);
    }
  }

  /** Adding makes this one membership and changes no other. */
  lemma AdditionExact(history: seq<Event>, group: string, connection: string, g: string, c: string)
    ensures Belongs(history + [Added(group, connection)], g, c) <==>
              ((g == group && c == connection) || Belongs(history, g, c))
  {
    var longer := history + [Added(group, connection)];
    assert longer[..|longer| - 1] == history;
  }

  /** At once: the connection is in no group, and every other membership is as before, none lost and none made. */
  lemma RemovalExact(history: seq<Event>, connection: string, group: string, other: string)
    ensures Belongs(history + [Removed(connection)], group, other) <==>
              other != connection && Belongs(history, group, other)
  {
    var longer := history + [Removed(connection)];
    assert longer[..|longer| - 1] == history;
  }

  /** Removing clears one connection from every group and leaves every other membership alone. */
  lemma {:induction false} RemoveClearsOne(history: seq<Event>, later: seq<Event>, connection: string, group: string,
                                           other: string)
    requires forall event | event in later :: !(event.Added? && event.connection == connection) && !event.Removed?
    ensures !Belongs(history + [Removed(connection)] + later, group, connection)
    ensures other != connection && Belongs(history, group, other)
            ==> Belongs(history + [Removed(connection)] + later, group, other)
  {
    var whole := history + [Removed(connection)] + later;
    if later == [] {
      assert whole[..|whole| - 1] == history;
    } else {
      RemoveClearsOne(history, later[..|later| - 1], connection, group, other);
      assert whole[..|whole| - 1] == history + [Removed(connection)] + later[..|later| - 1];
      assert later[|later| - 1] in later;
    }
  }
}
