/** The members the resolver chooses from, and the two lookups it performs on a pool. */
module Users {
  import opened Wrappers
  import opened Text

  /** One guild member as the resolver reads it: the snowflake id, the account
      name, the four-digit tag (`DiscriminatorValue`) and the guild nickname,
      absent when the member has none or the user is not a guild user. */
  datatype User = User(id: nat, username: string, discriminator: nat, nickname: Option<string>)

  /** The name fields the name strategies compare against. */
  datatype Field = Username | Nickname

  /** The value of a name field; only a nickname can be missing. */
  function FieldOf(u: User, f: Field): (v: Option<string>)
    ensures v.None? <==> f == Nickname && u.nickname.None?
  {
    match f
    case Username => Some(u.username)
    case Nickname => u.nickname
  }

  /** `mainGuild.GetUserAsync(id)`: the guild member with that id, if the
      guild pool holds one. */
  function FindById(pool: seq<User>, id: nat): (r: Option<User>)
    ensures r.Some? ==> r.value in pool && r.value.id == id
    ensures r.None? ==> forall u :: u in pool ==> u.id != id
  {
    if |pool| == 0 then None
    else if pool[0].id == id then Some(pool[0])
    else FindById(pool[1..], id)
  }

  /** The condition of the `name#tag` strategy: same tag, same name ignoring case. */
  predicate TagMatches(u: User, name: string, tag: nat)
  {
    u.discriminator == tag && EqualsIgnoreCase(name, u.username)
  }

  /** The first pool user, in pool order, whose tag matches and whose username
      matches the name ignoring case; `None` for the source's null. */
  function FirstTagMatch(pool: seq<User>, name: string, tag: nat): (r: Option<User>)
    ensures r.None? <==> forall u :: u in pool ==> !TagMatches(u, name, tag)
    ensures r.Some? ==> exists i :: 0 <= i < |pool| && pool[i] == r.value && TagMatches(pool[i], name, tag)
                          && forall j :: 0 <= j < i ==> !TagMatches(pool[j], name, tag)
  {
    if |pool| == 0 then None
    else if TagMatches(pool[0], name, tag) then Some(pool[0])
    else
      var r := FirstTagMatch(pool[1..], name, tag);
      assert forall u :: u in pool ==> u == pool[0] || u in pool[1..];
      if r.Some? then
        ghost var i :| 0 <= i < |pool[1..]| && pool[1..][i] == r.value && TagMatches(pool[1..][i], name, tag)
                        && forall j :: 0 <= j < i ==> !TagMatches(pool[1..][j], name, tag);
        assert pool[i + 1] == r.value;
        r
      else r
  }
}
