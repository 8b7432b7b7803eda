/** Role checks and password generation of `src/lib/auth.ts`. Token signing, cookies and
    password hashing are foreign calls and appear here only as their results. */
module Auth {
  import opened JsText

  /** The three roles a user can hold: `'s'`, `'t'` and `'a'`. */
  datatype Role = Student | Teacher | Admin

  /** The role as the one-letter code the application stores. */
  function Code(r: Role): (c: char)
    ensures c in "sta"
  {
    match r
    case Student => 's'
    case Teacher => 't'
    case Admin => 'a'
  }

  /** The fields of a signed-in user that the checks look at. */
  datatype AuthUser = AuthUser(userId: string, role: Role)

  /** `hasRole(user, requiredRole)`; `None` is the signed-out `null`. */
  function HasRole(user: Option<AuthUser>, required: Role): bool
  {
    if user.None? then false
    else if user.value.role == Admin then true
    else if user.value.role == Teacher && (required == Teacher || required == Student) then true
    else if user.value.role == Student && required == Student then true
    else false
  }

  /** Position of a role in the order student, teacher, admin. */
  function Level(r: Role): (n: nat)
    ensures n <= 2
  {
    match r
    case Student => 0
    case Teacher => 1
    case Admin => 2
  }

  /** A user holds exactly the roles at or below their own; nobody signed out holds any. */
  lemma HasRoleIsOrder(user: Option<AuthUser>, required: Role)
    ensures HasRole(user, required) <==> user.Some? && Level(required) <= Level(user.value.role)
  {
    match required
    case Student =>
    case Teacher =>
    case Admin =>
  }

  /** An admin has every role; a teacher has teacher and student but not admin; a student
      has only student. */
  lemma RoleTable(id: string, required: Role)
    ensures HasRole(Some(AuthUser(id, Admin)), required)
    ensures HasRole(Some(AuthUser(id, Teacher)), required) <==> required != Admin
    ensures HasRole(Some(AuthUser(id, Student)), required) <==> required == Student
    ensures !HasRole(None, required)
  {
    match required
    case Student =>
    case Teacher =>
    case Admin =>
  }

  /** A user holds their own role. */
  lemma HasRoleReflexive(user: AuthUser)
    ensures HasRole(Some(user), user.role)
  {
    HasRoleIsOrder(Some(user), user.role);
  }

  /** A user who holds a role holds every role that role holds. */
  lemma HasRoleTransitive(user: AuthUser, middle: Role, required: Role)
    requires HasRole(Some(user), middle)
    requires HasRole(Some(AuthUser(user.userId, middle)), required)
    ensures HasRole(Some(user), required)
  {
    HasRoleIsOrder(Some(user), middle);
    HasRoleIsOrder(Some(AuthUser(user.userId, middle)), required);
    HasRoleIsOrder(Some(user), required);
  }

  /** `isAdmin(user)`. */
  function IsAdmin(user: Option<AuthUser>): bool
  {
    user.Some? && user.value.role == Admin
  }

  /** `isTeacherOrAdmin(user)`. */
  function IsTeacherOrAdmin(user: Option<AuthUser>): bool
  {
    user.Some? && (user.value.role == Teacher || user.value.role == Admin)
  }

  /** The two shortcuts ask `hasRole` for admin and for teacher. */
  lemma ShortcutsAreHasRole(user: Option<AuthUser>)
    ensures IsAdmin(user) == HasRole(user, Admin)
    ensures IsTeacherOrAdmin(user) == HasRole(user, Teacher)
  {
    HasRoleIsOrder(user, Admin);
    HasRoleIsOrder(user, Teacher);
  }

  /** The `n` characters from `lo` onwards. */
  function Span(lo: char, n: nat): (r: string)
    requires lo as int + n <= 0x80
    ensures |r| == n
    ensures forall i :: 0 <= i < n ==> r[i] as int == lo as int + i
  {
    if n == 0 then "" else Span(lo, n - 1) + [(lo as int + n - 1) as char]
  }

  /** The characters a generated password is drawn from: the lower-case letters, the
      upper-case letters and the digits, in that order. */
  const Charset: string := Span('a', 26) + Span('A', 26) + Span('0', 10)

  lemma SpanMembers(lo: char, n: nat)
    requires lo as int + n <= 0x80
    ensures forall c :: c in Span(lo, n) <==> lo as int <= c as int < lo as int + n
  {
    var r := Span(lo, n);
    forall c | lo as int <= c as int < lo as int + n ensures c in r {
      assert r[c as int - lo as int] == c;
    }
  }

  lemma CharsetIsAlphanumeric()
    ensures |Charset| == 62
    ensures forall c :: c in Charset <==> IsAsciiLetter(c) || IsDigit(c)
  {
    SpanMembers('a', 26);
    SpanMembers('A', 26);
    SpanMembers('0', 10);
  }

  /** A draw of `Math.random()`. */
  predicate IsDraw(d: real) { 0.0 <= d < 1.0 }

  /** `charAt(Math.floor(d * charset.length))`, the length being 62: always a letter or a
      digit. */
  function CharOfDraw(d: real): (c: char)
    requires IsDraw(d)
    ensures IsAsciiLetter(c) || IsDigit(c)
  {
    CharsetIsAlphanumeric();
    var k := (d * 62.0).Floor;
    assert 0 <= k < |Charset|;
    assert Charset[k] in Charset;
    Charset[k]
  }

  /** `generateRandomPassword(length)`: the `i`-th call of `Math.random()` is `draws[i]`, and
      the `i`-th character is the one that draw picks. */
  method GenerateRandomPassword(length: int, draws: seq<real>) returns (password: string)
    requires forall i :: 0 <= i < |draws| ==> IsDraw(draws[i])
    requires length <= |draws|
    ensures |password| == if length < 0 then 0 else length
    ensures forall i :: 0 <= i < |password| ==> password[i] == CharOfDraw(draws[i])
    ensures forall c :: c in password ==> IsAsciiLetter(c) || IsDigit(c)
  {
    password := "";
    var i := 0;
    while i < length
      invariant 0 <= i && (length >= 0 ==> i <= length)
      invariant length < 0 ==> i == 0
      invariant |password| == i
      invariant forall k :: 0 <= k < i ==> password[k] == CharOfDraw(draws[k])
    {
      var next := password + [CharOfDraw(draws[i])];
      assert forall k :: 0 <= k < i ==> next[k] == password[k];
      password := next;
      i := i + 1;
    }
  }

}
