/**
  `extractRoles` and `extractGroups`: both build a list by trimming text.
  Roles come from the printed form of `realm_access.roles`: its outer two
  characters are dropped, the rest is split on ",", and each piece loses
  its first and last character. Groups each lose their first character.
 */
module RolesAndGroups {
  import opened JavaLang
  import opened JavaSplit
  import opened Claims

  /** The loop shape of both methods: apply `f` to each element in order
      and collect the results; the first exception escapes. */
  function MapEach(xs: seq<string>, f: string -> Outcome<string>): Outcome<seq<string>>
    decreases |xs|
  {
    if xs == [] then Returned([])
    else match f(xs[0])
      case Threw(e) => Threw(e)
      case Returned(y) =>
        match MapEach(xs[1..], f)
        case Threw(e) => Threw(e)
        case Returned(ys) => Returned([y] + ys)
  }

  /** `xs` followed by what `o` returns; an exception is kept. */
  function Prepend(xs: seq<string>, o: Outcome<seq<string>>): Outcome<seq<string>>
  {
    match o
    case Threw(e) => Threw(e)
    case Returned(ys) => Returned(xs + ys)
  }

  /** MapEach succeeds exactly when every element succeeds, and then holds
      each element's result at its position. */
  lemma {:induction false} MapEachShape(xs: seq<string>, f: string -> Outcome<string>)
    ensures MapEach(xs, f).Returned? <==> forall i :: 0 <= i < |xs| ==> f(xs[i]).Returned?
    ensures MapEach(xs, f).Returned? ==>
      |MapEach(xs, f).value| == |xs| &&
      forall i :: 0 <= i < |xs| ==> MapEach(xs, f).value[i] == f(xs[i]).value
    decreases |xs|
  {
    if xs != [] {
      MapEachShape(xs[1..], f);
      if f(xs[0]).Returned? && MapEach(xs[1..], f).Returned? {
        var out := MapEach(xs, f).value;
        forall i | 0 <= i < |xs| ensures out[i] == f(xs[i]).value {
          if i > 0 { assert xs[i] == xs[1..][i - 1]; }
        }
      }
      if !MapEach(xs, f).Returned? {
        if f(xs[0]).Returned? {
          var k :| 0 <= k < |xs[1..]| && !f(xs[1..][k]).Returned?;
          assert xs[1..][k] == xs[k + 1];
        }
      } else {
        forall i | 0 <= i < |xs| ensures f(xs[i]).Returned? {
          if i > 0 { assert xs[i] == xs[1..][i - 1]; }
        }
      }
    }
  }

  /** `role.substring(1, role.length() - 1)`. */
  function StripQuotes(piece: string): Outcome<string>
  {
    Substring(piece, 1, |piece| - 1)
  }

  /** `group.substring(1)`. */
  function DropFirst(group: string): Outcome<string>
  {
    SubstringFrom(group, 1)
  }

  /** The roles list derived from the printed roles text. */
  function RolesFromText(text: string): Outcome<seq<string>>
  {
    match Substring(text, 1, |text| - 1)
    case Threw(e) => Threw(e)
    case Returned(inner) => MapEach(Split(inner, ','), StripQuotes)
  }

  /** The body of `extractRoles`' try block once the token has parsed. */
  function RolesFromClaims(claims: ClaimSet): Outcome<seq<string>>
  {
    match claims.realmAccess
    case Absent => Threw(NullPointerException)
    case Malformed => Threw(ParseException)
    case Present(access) =>
      match access.roles
      case None => Threw(NullPointerException)
      case Some(text) => RolesFromText(text)
  }

  /** What `extractRoles` returns or throws for a parse outcome. */
  function RolesOf(parsed: Option<ClaimSet>): Outcome<seq<string>>
  {
    TryClaims(parsed, [], RolesFromClaims)
  }

  /** The body of `extractGroups`' try block once the token has parsed. */
  function GroupsFromClaims(claims: ClaimSet): Outcome<seq<string>>
  {
    match claims.groups
    case Absent => Threw(NullPointerException)
    case Malformed => Threw(ParseException)
    case Present(groups) => MapEach(groups, DropFirst)
  }

  /** What `extractGroups` returns or throws for a parse outcome. */
  function GroupsOf(parsed: Option<ClaimSet>): Outcome<seq<string>>
  {
    TryClaims(parsed, [], GroupsFromClaims)
  }

  /** The loop of both methods, one element per iteration. */
  method TrimEach(xs: seq<string>, f: string -> Outcome<string>) returns (r: Outcome<seq<string>>)
    ensures r == MapEach(xs, f)
  {
    var out: seq<string> := [];
    var i := 0;
    assert xs[i..] == xs;
    match MapEach(xs, f) {
      case Threw(_) =>
      case Returned(ys) => assert out + ys == ys;
    }
    while i < |xs|
      invariant 0 <= i <= |xs|
      invariant MapEach(xs, f) == Prepend(out, MapEach(xs[i..], f))
    {
      assert xs[i..][0] == xs[i] && xs[i..][1..] == xs[i + 1..];
      var y := f(xs[i]);
      if y.Threw? {
        return Threw(y.exception);
      }
      assert (out + [y.value]) + [] == out + [y.value];
      match MapEach(xs[i + 1..], f) {
        case Threw(_) =>
        case Returned(ys) => assert out + ([y.value] + ys) == (out + [y.value]) + ys;
      }
      out := out + [y.value];
      i := i + 1;
    }
    assert xs[i..] == [];
    assert out + [] == out;
    r := Returned(out);
  }

  /** `extractRoles(token)`: the try block yields `attempt`, and the
      handler turns a `ParseException` into the list as it started. */
  method ExtractRoles(parse: Parser, token: string) returns (r: Outcome<seq<string>>)
    ensures r == RolesOf(parse(token))
  {
    var roles: seq<string> := [];
    var attempt: Outcome<seq<string>>;
    var parsed := parse(token);
    if parsed.None? {
      attempt := Threw(ParseException);
    } else {
      match parsed.value.realmAccess {
        case Absent =>
          attempt := Threw(NullPointerException);
        case Malformed =>
          attempt := Threw(ParseException);
        case Present(access) =>
          if access.roles.None? {
            attempt := Threw(NullPointerException);
          } else {
            var text := access.roles.value;
            var inner := Substring(text, 1, |text| - 1);
            if inner.Threw? {
              attempt := Threw(inner.exception);
            } else {
              attempt := TrimEach(Split(inner.value, ','), StripQuotes);
            }
          }
      }
    }
    r := Catch(attempt, {ParseException}, roles);
  }

  /** `extractGroups(token)`, with the same handler. */
  method ExtractGroups(parse: Parser, token: string) returns (r: Outcome<seq<string>>)
    ensures r == GroupsOf(parse(token))
  {
    var groups: seq<string> := [];
    var attempt: Outcome<seq<string>>;
    var parsed := parse(token);
    if parsed.None? {
      attempt := Threw(ParseException);
    } else {
      match parsed.value.groups {
        case Absent =>
          attempt := Threw(NullPointerException);
        case Malformed =>
          attempt := Threw(ParseException);
        case Present(claim) =>
          attempt := TrimEach(claim, DropFirst);
      }
    }
    r := Catch(attempt, {ParseException}, groups);
  }

  /** Neither trimming step raises a `ParseException`, so the handler
      changes nothing once the claim has been read. */
  lemma {:induction false} TrimmingThrowsOnlyIndexErrors(xs: seq<string>)
    ensures MapEach(xs, StripQuotes).Threw? ==>
      MapEach(xs, StripQuotes).exception == StringIndexOutOfBoundsException
    ensures MapEach(xs, DropFirst).Threw? ==>
      MapEach(xs, DropFirst).exception == StringIndexOutOfBoundsException
    decreases |xs|
  {
    if xs != [] {
      TrimmingThrowsOnlyIndexErrors(xs[1..]);
    }
  }

  /** Roles: the text must have its two outer characters, and then the
      result holds one element per comma-separated piece, each piece minus
      its first and last character; a piece shorter than two characters
      raises an index error. */
  lemma RolesFromTextShape(text: string)
    ensures |text| < 2 ==> RolesFromText(text) == Threw(StringIndexOutOfBoundsException)
    ensures RolesFromText(text).Threw? ==>
      RolesFromText(text).exception == StringIndexOutOfBoundsException
    ensures |text| >= 2 ==>
      var pieces := Split(text[1..|text| - 1], ',');
      && (RolesFromText(text).Returned? <==> forall i :: 0 <= i < |pieces| ==> |pieces[i]| >= 2)
      && (RolesFromText(text).Returned? ==>
            |RolesFromText(text).value| == |pieces| &&
            forall i :: 0 <= i < |pieces| ==>
              RolesFromText(text).value[i] == pieces[i][1..|pieces[i]| - 1])
  {
    if |text| >= 2 {
      var pieces := Split(text[1..|text| - 1], ',');
      MapEachShape(pieces, StripQuotes);
      TrimmingThrowsOnlyIndexErrors(pieces);
    }
  }

  /** Every outcome of `extractRoles`: defaults on an unparsable token or a
      `realm_access` that is not an object; a null pointer error when
      `realm_access` or its `roles` entry is missing; otherwise the trimmed
      roles text. */
  lemma RolesOutcomes(parsed: Option<ClaimSet>)
    ensures parsed.None? ==> RolesOf(parsed) == Returned([])
    ensures parsed.Some? ==> match parsed.value.realmAccess
      case Absent => RolesOf(parsed) == Threw(NullPointerException)
      case Malformed => RolesOf(parsed) == Returned([])
      case Present(access) =>
        if access.roles.None? then RolesOf(parsed) == Threw(NullPointerException)
        else RolesOf(parsed) == RolesFromText(access.roles.value)
  {
    if parsed.Some? && parsed.value.realmAccess.Present? && parsed.value.realmAccess.value.roles.Some? {
      RolesFromTextShape(parsed.value.realmAccess.value.roles.value);
    }
  }

  /** Groups: one output per group, in order, each the group minus its
      first character; an empty group name raises an index error. */
  lemma GroupsShape(groups: seq<string>)
    ensures MapEach(groups, DropFirst).Returned? <==> forall i :: 0 <= i < |groups| ==> groups[i] != []
    ensures MapEach(groups, DropFirst).Threw? ==>
      MapEach(groups, DropFirst).exception == StringIndexOutOfBoundsException
    ensures MapEach(groups, DropFirst).Returned? ==>
      |MapEach(groups, DropFirst).value| == |groups| &&
      forall i :: 0 <= i < |groups| ==> MapEach(groups, DropFirst).value[i] == groups[i][1..]
  {
    MapEachShape(groups, DropFirst);
    TrimmingThrowsOnlyIndexErrors(groups);
  }

  /** Every outcome of `extractGroups`. */
  lemma GroupsOutcomes(parsed: Option<ClaimSet>)
    ensures parsed.None? ==> GroupsOf(parsed) == Returned([])
    ensures parsed.Some? ==> match parsed.value.groups
      case Absent => GroupsOf(parsed) == Threw(NullPointerException)
      case Malformed => GroupsOf(parsed) == Returned([])
      case Present(groups) => GroupsOf(parsed) == MapEach(groups, DropFirst)
  {
    if parsed.Some? && parsed.value.groups.Present? {
      TrimmingThrowsOnlyIndexErrors(parsed.value.groups.value);
    }
  }

  /** Group paths that all start with one leading character (Keycloak's
      "/") come back as the bare names, in order. */
  lemma GroupsRoundTrip(names: seq<string>, lead: char)
    ensures MapEach(seq(|names|, i requires 0 <= i < |names| => [lead] + names[i]), DropFirst)
      == Returned(names)
  {
    var paths := seq(|names|, i requires 0 <= i < |names| => [lead] + names[i]);
    GroupsShape(paths);
    assert forall i :: 0 <= i < |paths| ==> paths[i] != [] && paths[i][1..] == names[i];
    assert MapEach(paths, DropFirst).value == names;
  }

  /** The printed form `["r1","r2",…,"rn"]` of a list of role names. */
  function Quote(role: string): string
  {
    ['"'] + role + ['"']
  }

  function SerializedRoles(roles: seq<string>): string
  {
    "[" + Join(seq(|roles|, i requires 0 <= i < |roles| => Quote(roles[i])), ',') + "]"
  }

  lemma {:induction false} QuotedPiecesRoundTrip(roles: seq<string>)
    requires |roles| >= 1
    requires forall i :: 0 <= i < |roles| ==> ',' !in roles[i]
    ensures var quoted := seq(|roles|, i requires 0 <= i < |roles| => Quote(roles[i]));
      MapEach(Split(Join(quoted, ','), ','), StripQuotes) == Returned(roles)
  {
    var quoted := seq(|roles|, i requires 0 <= i < |roles| => Quote(roles[i]));
    forall i | 0 <= i < |quoted| ensures ',' !in quoted[i] {
      assert quoted[i] == ['"'] + roles[i] + ['"'];
    }
    SplitOfJoin(quoted, ',');
    MapEachShape(quoted, StripQuotes);
    forall i | 0 <= i < |quoted| ensures StripQuotes(quoted[i]) == Returned(roles[i]) {
      assert quoted[i][1..|quoted[i]| - 1] == roles[i];
    }
    assert MapEach(quoted, StripQuotes).value == roles;
  }

  /** Roles round trip: for a non-empty list of comma-free role names,
      trimming the printed list gives the names back, in order. */
  lemma RolesRoundTrip(roles: seq<string>)
    requires |roles| >= 1
    requires forall i :: 0 <= i < |roles| ==> ',' !in roles[i]
    ensures RolesFromText(SerializedRoles(roles)) == Returned(roles)
  {
    var quoted := seq(|roles|, i requires 0 <= i < |roles| => Quote(roles[i]));
    var text := SerializedRoles(roles);
    assert text[1..|text| - 1] == Join(quoted, ',');
    QuotedPiecesRoundTrip(roles);
  }

  /** As written, the printed empty list `[]` leaves one empty piece,
      whose trimming raises an index error that escapes `extractRoles`. */
  lemma EmptyRolesListThrows()
    ensures SerializedRoles([]) == "[]"
    ensures RolesFromText("[]") == Threw(StringIndexOutOfBoundsException)
  {
    assert Split("", ',') == [""];
  }

  /** The evidently intended trimming: an empty printed list gives no roles. */
  function RolesFromTextIntended(text: string): Outcome<seq<string>>
  {
    match Substring(text, 1, |text| - 1)
    case Threw(e) => Threw(e)
    case Returned(inner) =>
      if inner == [] then Returned([]) else MapEach(Split(inner, ','), StripQuotes)
  }

  /** The intended trimming round-trips every list of comma-free role
      names, the empty list included, and agrees with the code as written
      on every other printed list. */
  lemma IntendedRolesRoundTrip(roles: seq<string>)
    requires forall i :: 0 <= i < |roles| ==> ',' !in roles[i]
    ensures RolesFromTextIntended(SerializedRoles(roles)) == Returned(roles)
    ensures roles != [] ==> RolesFromTextIntended(SerializedRoles(roles)) == RolesFromText(SerializedRoles(roles))
  {
    var quoted := seq(|roles|, i requires 0 <= i < |roles| => Quote(roles[i]));
    var text := SerializedRoles(roles);
    assert text[1..|text| - 1] == Join(quoted, ',');
    if roles != [] {
      QuotedPiecesRoundTrip(roles);
      assert |quoted[0]| >= 2;
      assert Join(quoted, ',') != [] by {
        if |quoted| > 1 { assert |Join(quoted, ',')| >= |quoted[0]|; }
      }
    }
  }

  /** A token that parses with roles and group paths: `extractRoles` and
      `extractGroups` return the names verbatim. */
  lemma ParsedRolesAndGroups(parse: Parser, token: string, roles: seq<string>, names: seq<string>)
    requires |roles| >= 1
    requires forall i :: 0 <= i < |roles| ==> ',' !in roles[i]
    requires parse(token).Some?
    requires parse(token).value.realmAccess == Present(RealmAccess(Some(SerializedRoles(roles))))
    requires parse(token).value.groups ==
      Present(seq(|names|, i requires 0 <= i < |names| => "/" + names[i]))
    ensures RolesOf(parse(token)) == Returned(roles)
    ensures GroupsOf(parse(token)) == Returned(names)
  {
    RolesOutcomes(parse(token));
    RolesRoundTrip(roles);
    GroupsOutcomes(parse(token));
    GroupsRoundTrip(names, '/');
  }

  /** Every claim accessor returns its starting default on a token that
      does not parse. (It sits here rather than in `Claims` only because it
      also covers `RolesOf` and `GroupsOf`.) */
  lemma DefaultsWhenUnparsable(parse: Parser, token: string, now: int)
    requires parse(token).None?
    ensures IsTokenExpired(parse, token, now) == Returned(false)
    ensures GetTokenExpiryDate(parse, token) == None
    ensures GetUserId(parse, token) == Some("")
    ensures GetJti(parse, token) == Some("")
    ensures GetAudience(parse, token) == Some([])
    ensures RolesOf(parse(token)) == Returned([])
    ensures GroupsOf(parse(token)) == Returned([])
  {
  }
}
