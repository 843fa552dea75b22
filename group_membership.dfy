/**
 * `InternalGroupMembershipService`: the entry point the web layer calls to list the groups of a
 * user. It turns the request parameters into a group-membership query and hands that query to
 * the membership finder, whose result it returns as is.
 */
module GroupMembership {
  import opened Wrappers

  /** Which groups the query keeps: those the user is in, those it is not in, or all. */
  datatype Membership = In | Out | Any

  /**
   * The request parameters by name. An absent name stands for a null value; every value the
   * service reads is used as text.
   */
  type Params = map<string, string>

  /** `params.get(name)`: the value, or `None` for a null. */
  function Param(params: Params, name: string): (v: Option<string>)
    ensures v.Some? <==> name in params
    ensures v.Some? ==> v.value == params[name]
  {
    if name in params then Some(params[name]) else None
  }

  /** The query the finder receives, field by field as the builder is given them. */
  datatype GroupMembershipQuery = GroupMembershipQuery(
    membership: Membership,
    groupSearch: Option<string>,
    pageIndex: Option<int>,
    pageSize: Option<int>,
    login: Option<string>)

  /** `membership(params)`: the `selected` parameter read as a membership filter. */
  function MembershipOf(selected: Option<string>): (m: Membership)
    ensures m == In <==> selected == Some("selected")
    ensures m == Out <==> selected == Some("deselected")
  {
    if selected == Some("selected") then In
    else if selected == Some("deselected") then Out
    else Any
  }

  /** The `selected` value that asks for each filter: the partner of `MembershipOf`. */
  function SelectedValue(m: Membership): (selected: Option<string>)
    ensures m == Any <==> selected == None
  {
    match m
    case In => Some("selected")
    case Out => Some("deselected")
    case Any => None
  }

  /** Reading back the value that asks for a filter gives that filter. */
  lemma {:induction false} MembershipOfSelectedValue(m: Membership)
    ensures MembershipOf(SelectedValue(m)) == m
  {
    match m
    case In =>
    case Out =>
    case Any =>
  }

  /** Every value other than the two exact words, in whatever case or form, leaves the query unfiltered. */
  lemma {:induction false} OtherSelectedIsAny(selected: Option<string>)
    requires selected != SelectedValue(In) && selected != SelectedValue(Out)
    ensures MembershipOf(selected) == Any
  {
    assert SelectedValue(In) == Some("selected");
    assert SelectedValue(Out) == Some("deselected");
  }

  /**
   * `parseQuery(params)`: the query built from the request parameters. `toInteger` is the
   * conversion of a parameter to a possibly-null integer that the page fields go through.
   */
  function ParseQuery(params: Params, toInteger: Option<string> -> Option<int>): (q: GroupMembershipQuery)
    ensures q.membership == MembershipOf(Param(params, "selected"))
    ensures q.groupSearch == Param(params, "query") && q.login == Param(params, "user")
    ensures q.pageIndex == toInteger(Param(params, "page")) && q.pageSize == toInteger(Param(params, "pageSize"))
  {
    GroupMembershipQuery(
      membership := MembershipOf(Param(params, "selected")),
      groupSearch := Param(params, "query"),
      pageIndex := toInteger(Param(params, "page")),
      pageSize := toInteger(Param(params, "pageSize")),
      login := Param(params, "user"))
  }

  /** The names of the parameters the query is read from. */
  const QueryParams: set<string> := {"selected", "query", "page", "pageSize", "user"}

  /** Parameters that agree on the five names the query is read from give the same query. */
  lemma {:induction false} ParseQueryReadsOnlyQueryParams(p1: Params, p2: Params, toInteger: Option<string> -> Option<int>)
    requires forall name :: name in QueryParams ==> Param(p1, name) == Param(p2, name)
    ensures ParseQuery(p1, toInteger) == ParseQuery(p2, toInteger)
  {
    assert Param(p1, "selected") == Param(p2, "selected");
    assert Param(p1, "query") == Param(p2, "query");
    assert Param(p1, "page") == Param(p2, "page");
    assert Param(p1, "pageSize") == Param(p2, "pageSize");
    assert Param(p1, "user") == Param(p2, "user");
  }

  /** The parameters a web page sends for a query: the inverse of `ParseQuery` on its text fields. */
  function QueryRequest(membership: Membership, groupSearch: string, login: string): (params: Params)
    ensures params.Keys <= QueryParams
  {
    var base := map["query" := groupSearch, "user" := login];
    match SelectedValue(membership)
    case Some(selected) => base["selected" := selected]
    case None => base
  }

  /** A request built for a filter, a search text and a login parses back into them. */
  lemma {:induction false} ParseQueryRequest(membership: Membership, groupSearch: string, login: string,
                                             toInteger: Option<string> -> Option<int>)
    ensures ParseQuery(QueryRequest(membership, groupSearch, login), toInteger).membership == membership
    ensures ParseQuery(QueryRequest(membership, groupSearch, login), toInteger).groupSearch == Some(groupSearch)
    ensures ParseQuery(QueryRequest(membership, groupSearch, login), toInteger).login == Some(login)
    ensures ParseQuery(QueryRequest(membership, groupSearch, login), toInteger).pageIndex == toInteger(None)
  {
    var params := QueryRequest(membership, groupSearch, login);
    MembershipOfSelectedValue(membership);
    assert Param(params, "selected") == SelectedValue(membership);
    assert "page" !in params;
  }

  /**
   * `find(params)`: the finder's answer to the parsed query. `finder` is the membership
   * finder's lookup, whose result is returned unchanged.
   */
  function Find<R>(params: Params, toInteger: Option<string> -> Option<int>, finder: GroupMembershipQuery -> R): (r: R)
    ensures r == finder(ParseQuery(params, toInteger))
  {
    finder(ParseQuery(params, toInteger))
  }

  /** Two requests with the same query parameters get the same answer from the same finder. */
  lemma {:induction false} FindReadsOnlyQueryParams<R>(p1: Params, p2: Params, toInteger: Option<string> -> Option<int>,
                                                      finder: GroupMembershipQuery -> R)
    requires forall name :: name in QueryParams ==> Param(p1, name) == Param(p2, name)
    ensures Find(p1, toInteger, finder) == Find(p2, toInteger, finder)
  {
    ParseQueryReadsOnlyQueryParams(p1, p2, toInteger);
  }
}
