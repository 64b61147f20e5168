/** The member entity: identity, validated contact data, a role fixed at
    construction, and the verification flags that later requests set. */
module Members {
  import opened Common
  import opened ValueObjects

  datatype Role = RoleUser | RoleAdmin

  /** The builder's role default: a missing role becomes `ROLE_USER`. */
  function RoleOrDefault(role: Option<Role>): (r: Role)
    ensures role.Some? ==> r == role.value
    ensures role.None? ==> r == RoleUser
  {
    if role.Some? then role.value else RoleUser
  }

  /** Only an explicit administrator role makes an administrator: a member
      built without a role is never one. */
  lemma AdminOnlyWhenGiven(role: Option<Role>)
    ensures RoleOrDefault(role) == RoleAdmin <==> role == Some(RoleAdmin)
  {
  }

  /** What a member's mutable state looks like at one moment. */
  datatype MemberFlags = MemberFlags(emailVerified: bool, phoneVerified: bool, lastLoginAt: Option<int>)

  class Member {
    /** The identity the member received when it was persisted. */
    const id: int
    const email: EmailVo
    const password: PasswordVo
    const name: string
    const phone: PhoneVo
    const company: Option<string>
    const department: Option<string>
    /** No method assigns the role after construction; `const` records that. */
    const role: Role
    var emailVerified: bool
    var phoneVerified: bool
    var lastLoginAt: Option<int>

    function State(): MemberFlags
      reads this
    {
      MemberFlags(emailVerified, phoneVerified, lastLoginAt)
    }

    constructor (id: int, email: EmailVo, password: PasswordVo, name: string, phone: PhoneVo,
                 company: Option<string>, department: Option<string>, role: Option<Role>,
                 emailVerified: bool, phoneVerified: bool)
      ensures this.id == id && this.email == email && this.password == password
      ensures this.name == name && this.phone == phone
      ensures this.company == company && this.department == department
      ensures this.role == RoleOrDefault(role)
      ensures State() == MemberFlags(emailVerified, phoneVerified, None)
    {
      this.id := id;
      this.email := email;
      this.password := password;
      this.name := name;
      this.phone := phone;
      this.company := company;
      this.department := department;
      this.role := RoleOrDefault(role);
      this.emailVerified := emailVerified;
      this.phoneVerified := phoneVerified;
      this.lastLoginAt := None;
    }

    predicate IsAdmin() {
      role == RoleAdmin
    }

    /** Sets the e-mail flag whatever it was (so a second call changes nothing)
        and leaves every other field as it was. */
    method VerifyEmail()
      modifies this
      ensures State() == old(State()).(emailVerified := true)
    {
      emailVerified := true;
    }

    /** Sets the phone flag whatever it was and leaves every other field as it was. */
    method VerifyPhone()
      modifies this
      ensures State() == old(State()).(phoneVerified := true)
    {
      phoneVerified := true;
    }

    /** Records the login time, read from the clock by the caller. */
    method UpdateLastLoginAt(now: int)
      modifies this
      ensures State() == old(State()).(lastLoginAt := Some(now))
    {
      lastLoginAt := Some(now);
    }
  }
}
