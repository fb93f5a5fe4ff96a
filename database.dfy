/**
 * The persisted state behind the Express controllers: the User and Job tables (with the
 * unique index on email and the foreign key from a job to its owner), plus the abstract
 * collaborators the controllers call: the password hash, the signed token and the outgoing
 * mail transport.
 */
module Database {
  import opened Wrappers

  type UserId = int
  type JobId = int

  // ------------------------------------------------------------ password hashing (bcrypt)

  /** A salted one-way digest; the model treats it as collision-free. */
  datatype Digest = Digest(salt: nat, secret: string)

  /** `bcrypt.hash(password, salt)`. */
  function Hash(password: string, salt: nat): Digest {
    Digest(salt, password)
  }

  /** `bcrypt.compare(password, digest)`. */
  predicate Matches(password: string, d: Digest) {
    d.secret == password
  }

  /** A digest matches the password it was made from, whatever the salt, and no other. */
  lemma HashMatchesExactly(password: string, guess: string, salt: nat)
    ensures Matches(guess, Hash(password, salt)) <==> guess == password
  {
  }

  // ------------------------------------------------------------ signed tokens (JWT)

  /** The lifetime of a session token, `expiresIn: "30d"`, in seconds. */
  const SessionLifetime: nat := 30 * 24 * 60 * 60

  /** The lifetime of a password-reset token, `expiresIn: "15m"`, in seconds. */
  const ResetLifetime: nat := 15 * 60

  /** The claims of a signed token: the user id, when it was issued, how long it lives. */
  datatype Token = Token(userId: UserId, issuedAt: int, lifetime: nat)

  /** What a client presents: a token this server signed, or anything else. */
  datatype Credential = Signed(token: Token) | Forged

  /** `generateToken(id)`: a session token for `id` issued at `now`. */
  function SessionToken(id: UserId, now: int): (t: Token)
    ensures t.userId == id && t.issuedAt == now && t.lifetime == SessionLifetime
  {
    Token(id, now, SessionLifetime)
  }

  /** `jwt.verify`: the user id when the signature is ours and the token has not expired. */
  function Verify(c: Credential, now: int): (r: Option<UserId>)
    ensures r.Some? <==> c.Signed? && now < c.token.issuedAt + c.token.lifetime
    ensures r.Some? ==> r.value == c.token.userId
  {
    match c
    case Forged => None
    case Signed(t) => if now < t.issuedAt + t.lifetime then Some(t.userId) else None
  }

  // ------------------------------------------------------------ rows

  datatype User = User(id: UserId, name: string, email: string, password: Digest)

  datatype Job = Job(
    id: JobId,
    userId: UserId,
    company: string,
    jobTitle: string,
    jobUrl: Option<string>,
    status: string,
    priority: string,
    appliedDate: Option<string>,
    interviewDate: Option<string>,
    notes: Option<string>,
    createdAt: int)

  /** A password-reset mail handed to the transport. */
  datatype Mail = Mail(to: string, resetToken: Token)

  /** Every stored job sits under its own id. */
  ghost predicate JobsKeyed(jobs: map<JobId, Job>) {
    forall k :: k in jobs ==> jobs[k].id == k
  }

  /** The two tables, their auto-increment counters, and the mail sent so far. */
  class Store {
    var users: map<UserId, User>
    var emailIndex: map<string, UserId>
    var jobs: map<JobId, Job>
    var nextUserId: UserId
    var nextJobId: JobId
    var outbox: seq<Mail>

    /** Rows sit under their ids, the email index is exact, and every job's owner exists. */
    ghost predicate Valid()
      reads this
    {
      && 0 < nextUserId && 0 < nextJobId
      && (forall id :: id in users ==> users[id].id == id && 0 < id < nextUserId)
      && (forall id :: id in users ==> users[id].email in emailIndex && emailIndex[users[id].email] == id)
      && (forall e :: e in emailIndex ==> emailIndex[e] in users && users[emailIndex[e]].email == e)
      && JobsKeyed(jobs)
      && (forall k :: k in jobs ==> 0 < k < nextJobId && jobs[k].userId in users)
    }

    constructor ()
      ensures Valid()
      ensures users == map[] && jobs == map[] && outbox == []
    {
      users, emailIndex, jobs := map[], map[], map[];
      nextUserId, nextJobId := 1, 1;
      outbox := [];
    }

    /** `prisma.user.findUnique({ where: { email } })`. */
    function UserByEmail(email: string): (r: Option<User>)
      reads this
      requires Valid()
      ensures r.Some? <==> exists id :: id in users && users[id].email == email
      ensures r.Some? ==> r.value.id in users && users[r.value.id] == r.value && r.value.email == email
    {
      if email in emailIndex then
        var id := emailIndex[email];
        assert id in users && users[id].email == email;
        Some(users[id])
      else None
    }

    /** No two users share an email address. */
    lemma EmailsUnique()
      requires Valid()
      ensures forall a, b :: a in users && b in users && users[a].email == users[b].email ==> a == b
    {
    }
  }
}
