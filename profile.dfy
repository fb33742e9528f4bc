/** The profile handlers: names split and combined, skills normalised, the
    user-plus-profile response, and the `updateMe` rules (email and username
    checks before any write, name precedence, profile created on first use). */
module Profile {
  import opened Wrappers
  import Seqs
  import opened Text

  // ------------------------------------------------------------------ names

  /** `first_name` and `last_name`, each a string or null. */
  datatype NameParts = NameParts(first: Option<string>, last: Option<string>)

  /** `splitName`: nothing for a falsy name; otherwise the first white-space
      separated token and the remaining tokens joined by single blanks. */
  function SplitName(fullname: Option<string>): (r: NameParts)
    ensures !Truthy(fullname) ==> r == NameParts(None, None)
    ensures Truthy(fullname) ==> r.first.Some? && NoSpace(r.first.value)
    ensures Truthy(fullname) ==> r.first == Some(SplitWs(Trim(fullname.value))[0])
    ensures Truthy(fullname) && |SplitWs(Trim(fullname.value))| == 1 ==> r.last == None
    ensures Truthy(fullname) && |SplitWs(Trim(fullname.value))| > 1 ==>
      r.last == Some(Join(SplitWs(Trim(fullname.value))[1..], " "))
  {
    if !Truthy(fullname) then NameParts(None, None)
    else
      var parts := SplitWs(Trim(fullname.value));
      if |parts| == 1 then NameParts(Some(parts[0]), None)
      else NameParts(Some(parts[0]), Some(Join(parts[1..], " ")))
  }

  /** `combineName`: null when both parts are falsy, the other part when one is,
      else both joined by a blank and trimmed. */
  function CombineName(first: Option<string>, last: Option<string>): (r: Option<string>)
    ensures !Truthy(first) && !Truthy(last) ==> r == None
    ensures !Truthy(first) && Truthy(last) ==> r == last
    ensures Truthy(first) && !Truthy(last) ==> r == first
    ensures Truthy(first) && Truthy(last) ==> r == Some(Trim(first.value + " " + last.value))
  {
    if !Truthy(first) && !Truthy(last) then None
    else if !Truthy(first) then last
    else if !Truthy(last) then first
    else Some(Trim(first.value + " " + last.value))
  }

  lemma {:induction false} JoinFirst(ps: seq<string>, sep: string)
    requires |ps| >= 1 && ps[0] != ""
    ensures Join(ps, sep) != [] && Join(ps, sep)[0] == ps[0][0]
  {
  }

  lemma {:induction false} JoinLast(ps: seq<string>, sep: string)
    requires |ps| >= 1 && ps[|ps| - 1] != ""
    ensures Join(ps, sep) != [] && Join(ps, sep)[|Join(ps, sep)| - 1] == ps[|ps| - 1][|ps[|ps| - 1]| - 1]
  {
    if |ps| > 1 {
      assert ps[1..][|ps[1..]| - 1] == ps[|ps| - 1];
      JoinLast(ps[1..], sep);
    }
  }

  /** Splitting a name with at least one token and combining the parts gives the
      name back trimmed, with every white-space run collapsed to one blank. */
  lemma CombineSplitName(s: string)
    requires Trim(s) != ""
    ensures CombineName(SplitName(Some(s)).first, SplitName(Some(s)).last) == Some(CollapseSpaces(Trim(s)))
  {
    var t := Trim(s);
    var parts := SplitWs(t);
    SplitWsEnds(t);
    JoinSplitWs(t);
    if |parts| > 1 {
      JoinedTrimmed(parts);
    }
  }

  /** Words without white space whose outer ones are non-empty join to a trimmed
      text: the first word, a blank, and the rest joined. */
  lemma JoinedTrimmed(parts: seq<string>)
    requires |parts| > 1 && parts[0] != "" && parts[|parts| - 1] != ""
    requires forall i :: 0 <= i < |parts| ==> NoSpace(parts[i])
    ensures Join(parts[1..], " ") != ""
    ensures Join(parts, " ") == parts[0] + " " + Join(parts[1..], " ")
    ensures Trimmed(Join(parts, " "))
  {
    assert parts[1..][|parts[1..]| - 1] == parts[|parts| - 1];
    JoinLast(parts[1..], " ");
    JoinCons(parts[0], parts[1..], " ");
    assert [parts[0]] + parts[1..] == parts;
    JoinFirst(parts, " ");
    JoinLast(parts, " ");
    assert !IsSpace(parts[0][0]);
    assert !IsSpace(parts[|parts| - 1][|parts[|parts| - 1]| - 1]);
  }

  // ----------------------------------------------------------------- skills

  /** The `skills` value of a request: falsy, an array of strings, a string, or
      anything else. */
  datatype SkillsInput = FalsySkills | SkillList(items: seq<string>) | SkillText(text: string) | OtherSkills

  function TrimAll(items: seq<string>): (r: seq<string>)
    ensures |r| == |items|
    ensures forall i :: 0 <= i < |items| ==> r[i] == Trim(items[i])
  {
    seq(|items|, i requires 0 <= i < |items| => Trim(items[i]))
  }

  function NonEmpty(): string -> bool {
    (s: string) => s != ""
  }

  /** `.map(trim).filter(Boolean).filter(first occurrence)`. */
  function CleanSkills(items: seq<string>): (r: seq<string>)
    ensures Seqs.NoDuplicates(r)
    ensures forall s :: s in r <==> s != "" && exists i :: 0 <= i < |items| && Trim(items[i]) == s
    ensures forall s :: s in r ==> Trimmed(s)
  {
    var trimmed := TrimAll(items);
    assert forall s :: s in trimmed <==> exists i :: 0 <= i < |items| && Trim(items[i]) == s by {
      forall s | s in trimmed
        ensures exists i :: 0 <= i < |items| && Trim(items[i]) == s
      {
        var i :| 0 <= i < |trimmed| && trimmed[i] == s;
      }
      forall s | exists i :: 0 <= i < |items| && Trim(items[i]) == s
        ensures s in trimmed
      {
        var i :| 0 <= i < |items| && Trim(items[i]) == s;
        assert trimmed[i] == s;
      }
    }
    Seqs.Distinct(Seqs.Filter(trimmed, NonEmpty()))
  }

  /** `normalizeSkills`. */
  function NormalizeSkills(x: SkillsInput): (r: seq<string>)
    ensures Seqs.NoDuplicates(r)
    ensures forall s :: s in r ==> s != "" && Trimmed(s)
    ensures x.SkillList? ==> forall s :: s in r <==> s != "" && exists i :: 0 <= i < |x.items| && Trim(x.items[i]) == s
    ensures x.SkillText? ==> r == CleanSkills(Split(x.text, ','))
    ensures x.FalsySkills? || x.OtherSkills? || x == SkillText("") ==> r == []
  {
    match x
    case FalsySkills => []
    case SkillList(items) => CleanSkills(items)
    case SkillText(text) =>
      if text == "" then [] else CleanSkills(Split(text, ','))
    case OtherSkills => []
  }


  /** Normalising a normalised list changes nothing. */
  lemma NormalizeIdempotent(x: SkillsInput)
    ensures NormalizeSkills(SkillList(NormalizeSkills(x))) == NormalizeSkills(x)
  {
    var r := NormalizeSkills(x);
    var trimmed := TrimAll(r);
    assert trimmed == r by {
      forall i | 0 <= i < |r|
        ensures trimmed[i] == r[i]
      {
        assert r[i] in r;
      }
    }
    Seqs.FilterKeepsAll(r, NonEmpty());
    Seqs.DistinctOfNoDuplicates(r);
  }

  /** The survivors keep the order of their first trimmed occurrence in the request. */
  lemma NormalizeKeepsOrder(items: seq<string>)
    ensures var r := NormalizeSkills(SkillList(items));
      var kept := Seqs.Filter(TrimAll(items), NonEmpty());
      forall i, j :: 0 <= i < j < |r| ==> Seqs.IndexOf(kept, r[i]) < Seqs.IndexOf(kept, r[j])
  {
    Seqs.DistinctOrder(Seqs.Filter(TrimAll(items), NonEmpty()));
  }

  // ------------------------------------------------------- users, profiles

  type UserId = string

  /** A user as the controller reads it (name fields included). */
  datatype User = User(
    id: UserId, name: string, email: string, role: string, status: string,
    username: Option<string>, firstName: Option<string>, lastName: Option<string>,
    phone: Option<string>, language: Option<string>, pic: Option<string>)

  datatype UserProfile = UserProfile(
    user: UserId,
    fullname: Option<string>, occupation: Option<string>, companyName: Option<string>,
    availability: Option<string>, hourlyRate: Option<string>, bio: Option<string>,
    location: Option<string>, education: Option<string>, skills: seq<string>)

  const NameMaxLength: nat := 100

  /** The user schema's validators for the fields an update can touch. */
  predicate UserSchemaValid(u: User) {
    u.name != "" && JsLength(u.name) <= NameMaxLength && u.email != ""
  }

  predicate AtMost(x: Option<string>, n: nat) {
    x.Some? ==> JsLength(x.value) <= n
  }

  /** The profile schema's `maxlength` validators. */
  predicate ProfileSchemaValid(p: UserProfile) {
    && AtMost(p.fullname, 100) && AtMost(p.occupation, 100) && AtMost(p.companyName, 150)
    && AtMost(p.availability, 100) && AtMost(p.hourlyRate, 50) && AtMost(p.bio, 1000)
    && AtMost(p.location, 200) && AtMost(p.education, 200)
    && forall i :: 0 <= i < |p.skills| ==> JsLength(p.skills[i]) <= 100
  }

  datatype UserResponse = UserResponse(
    id: UserId, name: string, email: string, role: string,
    username: Option<string>, firstName: Option<string>, lastName: Option<string>,
    fullname: Option<string>, occupation: Option<string>, companyName: Option<string>,
    phone: Option<string>, language: string, availability: Option<string>,
    hourlyRate: Option<string>, skills: seq<string>, bio: Option<string>,
    location: Option<string>, pic: Option<string>)

  function ProfileField(p: Option<UserProfile>, f: UserProfile -> Option<string>): Option<string> {
    if p.Some? then OrNull(f(p.value)) else None
  }

  /** `formatUserResponse`. */
  function FormatUserResponse(u: User, p: Option<UserProfile>): (r: UserResponse)
    ensures var own := if p.Some? then p.value.fullname else None;
      var combined := CombineName(u.firstName, u.lastName);
      r.fullname == if Truthy(own) then own else if Truthy(combined) then combined else OrNull(Some(u.name))
    ensures p.Some? && Truthy(p.value.fullname) ==>
      r.firstName == OrNull(SplitName(p.value.fullname).first) && r.lastName == OrNull(SplitName(p.value.fullname).last)
    ensures !(p.Some? && Truthy(p.value.fullname)) ==> r.firstName == OrNull(u.firstName) && r.lastName == OrNull(u.lastName)
    ensures r.language == (if Truthy(u.language) then u.language.value else "en")
    ensures r.skills == (if p.Some? then p.value.skills else [])
    ensures r.id == u.id && r.name == u.name && r.email == u.email && r.role == u.role
    ensures r.username == OrNull(u.username) && r.phone == OrNull(u.phone) && r.pic == OrNull(u.pic)
    ensures p.None? ==>
      r.occupation == r.companyName == r.availability == r.hourlyRate == r.bio == r.location == None
    ensures p.Some? ==>
      && r.occupation == OrNull(p.value.occupation) && r.companyName == OrNull(p.value.companyName)
      && r.availability == OrNull(p.value.availability) && r.hourlyRate == OrNull(p.value.hourlyRate)
      && r.bio == OrNull(p.value.bio) && r.location == OrNull(p.value.location)
  {
    var own := if p.Some? then p.value.fullname else None;
    var fullname := Or(Or(own, CombineName(u.firstName, u.lastName)), Some(u.name));
    var names := if Truthy(own) then SplitName(own) else NameParts(u.firstName, u.lastName);
    UserResponse(
      u.id, u.name, u.email, u.role,
      OrNull(u.username), OrNull(names.first), OrNull(names.last), OrNull(fullname),
      ProfileField(p, (x: UserProfile) => x.occupation), ProfileField(p, (x: UserProfile) => x.companyName),
      OrNull(u.phone), OrElse(u.language, "en"),
      ProfileField(p, (x: UserProfile) => x.availability), ProfileField(p, (x: UserProfile) => x.hourlyRate),
      if p.Some? then p.value.skills else [],
      ProfileField(p, (x: UserProfile) => x.bio), ProfileField(p, (x: UserProfile) => x.location),
      OrNull(u.pic))
  }

  // ------------------------------------------------------------- requests

  /** A request field: `None` when undefined, `Some(None)` when null, else the string. */
  type Field = Option<Option<string>>

  datatype MeRequest = MeRequest(
    fullname: Field, occupation: Field, companyName: Field, phone: Field,
    email: Field, username: Field, language: Field, availability: Field,
    hourlyRate: Field, skills: Option<SkillsInput>, bio: Field, location: Field,
    firstName: Field, lastName: Field, pic: Field, education: Field)

  /** The email pattern `^[^\s@]+@[^\s@]+\.[^\s@]+$`: one `@` after a non-empty
      local part, a dot strictly inside the domain, and no white space. */
  predicate ValidEmail(e: string) {
    var i := Text.IndexOf(e, '@');
    && NoSpace(e)
    && 0 < i < |e|
    && '@' !in e[i + 1..]
    && HasInnerDot(e[i + 1..])
  }

  /** A dot with at least one character on either side. */
  predicate HasInnerDot(d: string) {
    exists k :: 0 < k < |d| - 1 && d[k] == '.'
  }

  predicate Piece(s: string) {
    s != "" && NoSpace(s) && '@' !in s
  }

  /** `ValidEmail` is the pattern read piece by piece. */
  lemma ValidEmailPieces(local: string, host: string, top: string)
    requires Piece(local) && Piece(host) && Piece(top)
    ensures ValidEmail(local + "@" + host + "." + top)
  {
    var e := local + "@" + host + "." + top;
    Text.IndexOfPrefix(local, host + "." + top, '@');
    assert e == local + ['@'] + (host + "." + top);
    var d := e[|local| + 1..];
    assert d == host + "." + top;
    assert d[|host|] == '.';
    assert forall j :: 0 <= j < |e| ==> !IsSpace(e[j]) by {
      forall j | 0 <= j < |e|
        ensures !IsSpace(e[j])
      {
        if j < |local| {
          assert e[j] == local[j];
        } else if j == |local| {
        } else if j < |local| + 1 + |host| {
          assert e[j] == host[j - |local| - 1];
        } else if j == |local| + 1 + |host| {
        } else {
          assert e[j] == top[j - |local| - 2 - |host|];
        }
      }
    }
    forall j | 0 <= j < |d|
      ensures d[j] != '@'
    {
      if j < |host| {
        assert d[j] == host[j];
      } else if j > |host| {
        assert d[j] == top[j - |host| - 1];
      }
    }
  }

  /** Conversely, every address `ValidEmail` accepts splits into such pieces. */
  lemma ValidEmailSplits(e: string)
    requires ValidEmail(e)
    ensures exists local, host, top :: Piece(local) && Piece(host) && Piece(top) && e == local + "@" + host + "." + top
  {
    var i := Text.IndexOf(e, '@');
    var d := e[i + 1..];
    var k :| 0 < k < |d| - 1 && d[k] == '.';
    var local, host, top := e[..i], d[..k], d[k + 1..];
    Halves(e, i);
    Halves(e, i + 1);
    Halves(d, k);
    Halves(d, k + 1);
    assert Piece(local) && Piece(host) && Piece(top);
    Reassemble(e, i, k);
    EmailWitness(e, local, host, top);
  }

  /** Cutting at the `@` and at a dot after it and gluing back gives the address. */
  lemma Reassemble(e: string, i: nat, k: nat)
    requires i < |e| && e[i] == '@' && k < |e[i + 1..]| && e[i + 1..][k] == '.'
    ensures e == e[..i] + "@" + e[i + 1..][..k] + "." + e[i + 1..][k + 1..]
  {
    var d := e[i + 1..];
    assert e == e[..i] + [e[i]] + d;
    assert d == d[..k] + [d[k]] + d[k + 1..];
  }

  lemma EmailWitness(e: string, local: string, host: string, top: string)
    requires Piece(local) && Piece(host) && Piece(top) && e == local + "@" + host + "." + top
    ensures exists l, h, t :: Piece(l) && Piece(h) && Piece(t) && e == l + "@" + h + "." + t
  {
  }

  /** Both sides of a cut keep the absence of white space and of `@`. */
  lemma Halves(s: string, n: nat)
    requires n <= |s|
    ensures NoSpace(s) ==> NoSpace(s[..n]) && NoSpace(s[n..])
    ensures '@' !in s ==> '@' !in s[..n] && '@' !in s[n..]
  {
    assert forall j :: 0 <= j < n ==> s[..n][j] == s[j];
    assert forall j :: 0 <= j < |s| - n ==> s[n..][j] == s[n + j];
  }

  /** Another user already has the lowercased address. */
  predicate EmailInUse(users: map<UserId, User>, caller: UserId, email: string) {
    exists id :: id in users && id != caller && users[id].email == Lower(email)
  }

  predicate UsernameInUse(users: map<UserId, User>, caller: UserId, username: string) {
    exists id :: id in users && id != caller && users[id].username == Some(username)
  }

  /** The checks of `updateMe` in order; the first that fails decides the answer. */
  function Rejection(users: map<UserId, User>, caller: UserId, req: MeRequest): (f: Option<Failure>)
    ensures req.email.Some? && Truthy(req.email.value) && !ValidEmail(req.email.value.value) ==>
      f == Some(Fail(400, InvalidEmail))
    ensures req.email.Some? && !Truthy(req.email.value) ==> f == Some(Fail(400, EmptyEmail))
    ensures (req.email.Some? && Truthy(req.email.value) && ValidEmail(req.email.value.value)
             && EmailInUse(users, caller, req.email.value.value)) ==> f == Some(Fail(409, EmailTaken))
    ensures ((req.email.Some? ==> Truthy(req.email.value) && ValidEmail(req.email.value.value)
                                  && !EmailInUse(users, caller, req.email.value.value))
             && req.username.Some? && Truthy(req.username.value)
             && UsernameInUse(users, caller, req.username.value.value)) ==> f == Some(Fail(409, UsernameTaken))
    ensures f.None? <==>
      && (req.email.Some? ==> Truthy(req.email.value) && ValidEmail(req.email.value.value)
                              && !EmailInUse(users, caller, req.email.value.value))
      && (req.username.Some? && Truthy(req.username.value) ==> !UsernameInUse(users, caller, req.username.value.value))
  {
    if req.email.Some? && Truthy(req.email.value) && !ValidEmail(req.email.value.value) then
      Some(Fail(400, InvalidEmail))
    else if req.email.Some? && Truthy(req.email.value) && EmailInUse(users, caller, req.email.value.value) then
      Some(Fail(409, EmailTaken))
    else if req.email.Some? && !Truthy(req.email.value) then
      Some(Fail(400, EmptyEmail))
    else if req.username.Some? && Truthy(req.username.value) && UsernameInUse(users, caller, req.username.value.value) then
      Some(Fail(409, UsernameTaken))
    else None
  }

  // --------------------------------------------------------- user update

  /** `userUpdate`: for each key, `None` when it is not set. */
  datatype UserPatch = UserPatch(
    email: Option<string>, username: Option<Option<string>>, phone: Option<Option<string>>,
    language: Option<string>, pic: Option<Option<string>>,
    firstName: Option<Option<string>>, lastName: Option<Option<string>>, name: Option<string>)

  predicate UserPatchEmpty(p: UserPatch) {
    p == UserPatch(None, None, None, None, None, None, None, None)
  }

  /** The first or last name an update by parts leaves: the supplied value, else the old one. */
  function PartOr(x: Field, old_value: Option<string>): Option<string> {
    if x.Some? then x.value else old_value
  }

  /** What `userUpdate` holds once the checks have passed. */
  function UserPatchOf(u: User, req: MeRequest): UserPatch {
    var names :=
      if req.fullname.Some? then
        var parts := SplitName(req.fullname.value);
        (Some(parts.first), Some(parts.last), Some(OrElse(req.fullname.value, u.name)))
      else if req.firstName.Some? || req.lastName.Some? then
        var first, last := PartOr(req.firstName, u.firstName), PartOr(req.lastName, u.lastName);
        (Some(OrNull(first)), Some(OrNull(last)), Some(OrElse(CombineName(first, last), u.name)))
      else (None, None, None);
    UserPatch(
      if req.email.Some? && req.email.value.Some? then Some(Lower(req.email.value.value)) else None,
      if req.username.Some? then Some(OrNull(req.username.value)) else None,
      if req.phone.Some? then Some(OrNull(req.phone.value)) else None,
      if req.language.Some? then Some(OrElse(req.language.value, "en")) else None,
      if req.pic.Some? then Some(OrNull(req.pic.value)) else None,
      names.0, names.1, names.2)
  }

  /** `userUpdate`, built key by key as the handler does. */
  method BuildUserPatch(u: User, req: MeRequest) returns (p: UserPatch)
    ensures p == UserPatchOf(u, req)
  {
    p := UserPatch(None, None, None, None, None, None, None, None);
    if req.email.Some? && req.email.value.Some? {
      p := p.(email := Some(Lower(req.email.value.value)));
    }
    if req.username.Some? {
      p := p.(username := Some(OrNull(req.username.value)));
    }
    if req.phone.Some? {
      p := p.(phone := Some(OrNull(req.phone.value)));
    }
    if req.language.Some? {
      p := p.(language := Some(OrElse(req.language.value, "en")));
    }
    if req.pic.Some? {
      p := p.(pic := Some(OrNull(req.pic.value)));
    }
    if req.fullname.Some? {
      var parts := SplitName(req.fullname.value);
      p := p.(firstName := Some(parts.first), lastName := Some(parts.last));
      p := p.(name := Some(OrElse(req.fullname.value, u.name)));
    } else if req.firstName.Some? || req.lastName.Some? {
      var first := if req.firstName.Some? then req.firstName.value else u.firstName;
      var last := if req.lastName.Some? then req.lastName.value else u.lastName;
      p := p.(firstName := Some(OrNull(first)), lastName := Some(OrNull(last)));
      p := p.(name := Some(OrElse(CombineName(first, last), u.name)));
    }
  }

  function Put<T>(x: Option<T>, old_value: T): T {
    if x.Some? then x.value else old_value
  }

  /** `Object.assign(user, userUpdate)`. */
  function ApplyUserPatch(u: User, p: UserPatch): (v: User)
    ensures v.id == u.id && v.role == u.role && v.status == u.status
  {
    User(u.id, Put(p.name, u.name), Put(p.email, u.email), u.role, u.status,
         Put(p.username, u.username), Put(p.firstName, u.firstName), Put(p.lastName, u.lastName),
         Put(p.phone, u.phone), if p.language.Some? then p.language else u.language, Put(p.pic, u.pic))
  }

  /** The name rules: a supplied `fullname` decides both parts and the name,
      whatever `first_name`/`last_name` say; otherwise a part that is not
      supplied keeps its old value; with none of the three, no name field
      changes. A supplied email is stored lowercased. */
  lemma UserPatchRules(u: User, req: MeRequest)
    ensures var v := ApplyUserPatch(u, UserPatchOf(u, req));
      && (req.fullname.Some? ==>
            && v.firstName == SplitName(req.fullname.value).first
            && v.lastName == SplitName(req.fullname.value).last
            && v.name == (if Truthy(req.fullname.value) then req.fullname.value.value else u.name))
      && (req.fullname.None? && req.firstName.None? && req.lastName.Some? ==>
            v.firstName == OrNull(u.firstName) && v.lastName == OrNull(req.lastName.value))
      && (req.fullname.None? && req.firstName.Some? && req.lastName.None? ==>
            v.firstName == OrNull(req.firstName.value) && v.lastName == OrNull(u.lastName))
      && (req.fullname.None? && req.firstName.None? && req.lastName.None? ==>
            v.firstName == u.firstName && v.lastName == u.lastName && v.name == u.name)
      && (req.email.Some? && req.email.value.Some? ==> v.email == Lower(req.email.value.value))
      && (req.email.None? ==> v.email == u.email)
      && (req.language.Some? && !Truthy(req.language.value) ==> v.language == Some("en"))
  {
  }

  // ------------------------------------------------------ profile update

  /** `profileUpdate`: for each key, `None` when it is not set. */
  datatype ProfilePatch = ProfilePatch(
    fullname: Option<Option<string>>, occupation: Option<Option<string>>,
    companyName: Option<Option<string>>, availability: Option<Option<string>>,
    hourlyRate: Option<Option<string>>, bio: Option<Option<string>>,
    location: Option<Option<string>>, skills: Option<seq<string>>,
    education: Option<Option<string>>)

  function NoProfilePatch(): ProfilePatch {
    ProfilePatch(None, None, None, None, None, None, None, None, None)
  }

  function NullIfFalsy(x: Field): Option<Option<string>> {
    if x.Some? then Some(OrNull(x.value)) else None
  }

  function ProfilePatchOf(req: MeRequest): ProfilePatch {
    ProfilePatch(
      NullIfFalsy(req.fullname), NullIfFalsy(req.occupation), NullIfFalsy(req.companyName),
      NullIfFalsy(req.availability), NullIfFalsy(req.hourlyRate), NullIfFalsy(req.bio),
      NullIfFalsy(req.location),
      if req.skills.Some? then Some(NormalizeSkills(req.skills.value)) else None,
      NullIfFalsy(req.education))
  }

  /** `profileUpdate`, built key by key as the handler does. */
  method BuildProfilePatch(req: MeRequest) returns (p: ProfilePatch)
    ensures p == ProfilePatchOf(req)
    ensures p == NoProfilePatch() <==>
      req.fullname.None? && req.occupation.None? && req.companyName.None? && req.availability.None?
      && req.hourlyRate.None? && req.bio.None? && req.location.None? && req.skills.None? && req.education.None?
  {
    p := NoProfilePatch();
    if req.fullname.Some? {
      p := p.(fullname := Some(OrNull(req.fullname.value)));
    }
    if req.occupation.Some? {
      p := p.(occupation := Some(OrNull(req.occupation.value)));
    }
    if req.companyName.Some? {
      p := p.(companyName := Some(OrNull(req.companyName.value)));
    }
    if req.availability.Some? {
      p := p.(availability := Some(OrNull(req.availability.value)));
    }
    if req.hourlyRate.Some? {
      p := p.(hourlyRate := Some(OrNull(req.hourlyRate.value)));
    }
    if req.bio.Some? {
      p := p.(bio := Some(OrNull(req.bio.value)));
    }
    if req.location.Some? {
      p := p.(location := Some(OrNull(req.location.value)));
    }
    if req.skills.Some? {
      p := p.(skills := Some(NormalizeSkills(req.skills.value)));
    }
    if req.education.Some? {
      p := p.(education := Some(OrNull(req.education.value)));
    }
    assert p == ProfilePatchOf(req);
    ProfilePatchEmpty(req);
  }

  /** The profile update is empty exactly when no profile key is supplied. */
  lemma ProfilePatchEmpty(req: MeRequest)
    ensures ProfilePatchOf(req) == NoProfilePatch() <==>
      req.fullname.None? && req.occupation.None? && req.companyName.None? && req.availability.None?
      && req.hourlyRate.None? && req.bio.None? && req.location.None? && req.skills.None? && req.education.None?
  {
  }

  function EmptyProfile(user: UserId): UserProfile {
    UserProfile(user, None, None, None, None, None, None, None, None, [])
  }

  /** `Object.assign(profile, profileUpdate)`. */
  function ApplyProfilePatch(p: UserProfile, q: ProfilePatch): (r: UserProfile)
    ensures r.user == p.user
  {
    UserProfile(p.user,
      Put(q.fullname, p.fullname), Put(q.occupation, p.occupation), Put(q.companyName, p.companyName),
      Put(q.availability, p.availability), Put(q.hourlyRate, p.hourlyRate), Put(q.bio, p.bio),
      Put(q.location, p.location), Put(q.education, p.education), Put(q.skills, p.skills))
  }

  function ProfileOf(profiles: map<UserId, UserProfile>, user: UserId): Option<UserProfile> {
    if user in profiles then Some(profiles[user]) else None
  }

  /** `getMe`: the caller's user with their profile, or 404. */
  function GetMe(users: map<UserId, User>, profiles: map<UserId, UserProfile>, caller: UserId): (r: Response<UserResponse>)
    ensures r.Error? <==> caller !in users
    ensures r.Error? ==> r.failure == Fail(404, UserNotFound)
    ensures r.Ok? ==> r.body == FormatUserResponse(users[caller], ProfileOf(profiles, caller))
    ensures r.Ok? ==> r.body.id == users[caller].id && r.body.skills == (if caller in profiles then profiles[caller].skills else [])
  {
    if caller !in users then Error(Fail(404, UserNotFound))
    else Ok(FormatUserResponse(users[caller], ProfileOf(profiles, caller)))
  }

  /** The users and profiles collections. */
  class ProfileStore {
    var users: map<UserId, User>
    var profiles: map<UserId, UserProfile>

    /** Users sit under their own id and profiles under their owner's; no two
        users share an email or a username, and stored emails are lowercase. */
    ghost predicate Valid()
      reads this
    {
      && (forall id :: id in users ==> users[id].id == id && Lower(users[id].email) == users[id].email)
      && (forall id :: id in profiles ==> profiles[id].user == id)
      && (forall a, b :: a in users && b in users && a != b ==> users[a].email != users[b].email)
      && (forall a, b :: a in users && b in users && a != b && users[a].username.Some? ==>
            users[a].username != users[b].username)
    }

    constructor ()
      ensures Valid() && users == map[] && profiles == map[]
    {
      users := map[];
      profiles := map[];
    }

    /** `updateMe`. An unknown caller gets 404 and a failed check its 400 or
        409, both before anything is written. Otherwise the user takes the
        update (when it has keys) and then the profile does, an absent profile
        being created only when the update has profile keys; a record its schema
        refuses is not written. */
    method UpdateMe(caller: UserId, req: MeRequest) returns (r: Response<UserResponse>)
      requires Valid()
      modifies this
      ensures Valid()
      ensures caller !in old(users) ==>
        r == Error(Fail(404, UserNotFound)) && users == old(users) && profiles == old(profiles)
      ensures caller in old(users) && Rejection(old(users), caller, req).Some? ==>
        r == Error(Rejection(old(users), caller, req).value) && users == old(users) && profiles == old(profiles)
      ensures caller in old(users) && Rejection(old(users), caller, req).None? ==>
        var u := ApplyUserPatch(old(users)[caller], UserPatchOf(old(users)[caller], req));
        var userWritten := !UserPatchEmpty(UserPatchOf(old(users)[caller], req));
        var base := if caller in old(profiles) then old(profiles)[caller] else EmptyProfile(caller);
        var pr := ApplyProfilePatch(base, ProfilePatchOf(req));
        var profileWritten := ProfilePatchOf(req) != NoProfilePatch();
        if userWritten && !UserSchemaValid(u) then
          r == Error(SchemaRejected) && users == old(users) && profiles == old(profiles)
        else
          && users == (if userWritten then old(users)[caller := u] else old(users))
          && (if profileWritten && !ProfileSchemaValid(pr) then
                r == Error(SchemaRejected) && profiles == old(profiles)
              else
                && profiles == (if profileWritten then old(profiles)[caller := pr] else old(profiles))
                && r == Ok(FormatUserResponse(users[caller], ProfileOf(profiles, caller))))
      ensures r.Ok? ==> r == GetMe(users, profiles, caller)
    {
      if caller !in users {
        return Error(Fail(404, UserNotFound));
      }
      var user := users[caller];
      var rejection := Rejection(users, caller, req);
      if rejection.Some? {
        return Error(rejection.value);
      }
      var userUpdate := BuildUserPatch(user, req);
      if !UserPatchEmpty(userUpdate) {
        var updated := ApplyUserPatch(user, userUpdate);
        if !UserSchemaValid(updated) {
          return Error(SchemaRejected);
        }
        KeepsUnique(users, caller, req);
        users := users[caller := updated];
      }
      var profileUpdate := BuildProfilePatch(req);
      if profileUpdate != NoProfilePatch() {
        var base := if caller in profiles then profiles[caller] else EmptyProfile(caller);
        var profile := ApplyProfilePatch(base, profileUpdate);
        if !ProfileSchemaValid(profile) {
          return Error(SchemaRejected);
        }
        profiles := profiles[caller := profile];
      }
      r := Ok(FormatUserResponse(users[caller], ProfileOf(profiles, caller)));
    }
  }

  lemma LowerIdempotent(s: string)
    ensures Lower(Lower(s)) == Lower(s)
  {
  }

  /** A user update that passed the checks keeps emails and usernames unique and emails lowercase. */
  lemma KeepsUnique(users: map<UserId, User>, caller: UserId, req: MeRequest)
    requires caller in users && Rejection(users, caller, req).None?
    requires forall id :: id in users ==> users[id].id == id && Lower(users[id].email) == users[id].email
    requires forall a, b :: a in users && b in users && a != b ==> users[a].email != users[b].email
    requires forall a, b :: a in users && b in users && a != b && users[a].username.Some? ==>
      users[a].username != users[b].username
    ensures var n := users[caller := ApplyUserPatch(users[caller], UserPatchOf(users[caller], req))];
      && (forall id :: id in n ==> n[id].id == id && Lower(n[id].email) == n[id].email)
      && (forall a, b :: a in n && b in n && a != b ==> n[a].email != n[b].email)
      && (forall a, b :: a in n && b in n && a != b && n[a].username.Some? ==> n[a].username != n[b].username)
  {
    var u := users[caller];
    var v := ApplyUserPatch(u, UserPatchOf(u, req));
    if req.email.Some? {
      LowerIdempotent(req.email.value.value);
    }
  }
}
