/**
 * register (routes.py:84-111): a new account is refused when its email, or
 * else its username, is already taken; otherwise a regular (non-admin) user
 * is added under the next free id. The password hash is computed outside
 * the model and passed in.
 */
module Accounts {
  import opened Store

  datatype RegisterReply =
    | EmailTaken        // 'Cet email est déjà utilisé'
    | UsernameTaken     // "Ce nom d'utilisateur est déjà pris"
    | Registered(id: Id)

  datatype RegisterStep = RegisterStep(reply: RegisterReply, store: Store)

  function Register(s: Store, username: string, email: string, passwordHash: string): (r: RegisterStep)
    ensures r.reply == EmailTaken <==> EmailInUse(s.users, email)
    ensures r.reply == UsernameTaken <==> !EmailInUse(s.users, email) && UsernameInUse(s.users, username)
    ensures r.reply.Registered? <==> !EmailInUse(s.users, email) && !UsernameInUse(s.users, username)
    ensures !r.reply.Registered? ==> r.store == s
    ensures r.reply.Registered? ==>
      && r.reply.id == s.nextUserId
      && r.store.users == s.users[s.nextUserId := User(username, email, passwordHash, false)]
      && r.store.nextUserId == s.nextUserId + 1
      && r.store.(users := s.users, nextUserId := s.nextUserId) == s
  {
    if EmailInUse(s.users, email) then RegisterStep(EmailTaken, s)
    else if UsernameInUse(s.users, username) then RegisterStep(UsernameTaken, s)
    else
      var id := s.nextUserId;
      RegisterStep(Registered(id), s.(users := s.users[id := User(username, email, passwordHash, false)], nextUserId := id + 1))
  }

  /** Registration never lets two accounts share an email or a username. */
  lemma RegisterKeepsCredentialsUnique(s: Store, username: string, email: string, passwordHash: string)
    requires Consistent(s) && UniqueCredentials(s.users)
    ensures UniqueCredentials(Register(s, username, email, passwordHash).store.users)
  {
    var r := Register(s, username, email, passwordHash);
    if r.reply.Registered? {
      var users := r.store.users;
      forall a, b | a in users && b in users && a != b
        ensures users[a].email != users[b].email && users[a].username != users[b].username
      {
        if a == s.nextUserId {
          assert b in s.users;
        } else if b == s.nextUserId {
          assert a in s.users;
        }
      }
    }
  }

  /** A new account references nothing and takes a fresh id. */
  lemma RegisterConsistent(s: Store, username: string, email: string, passwordHash: string)
    requires Consistent(s)
    ensures Consistent(Register(s, username, email, passwordHash).store)
    ensures Register(s, username, email, passwordHash).reply.Registered? ==> s.nextUserId !in s.users
  {
  }

  /** Once an email is registered, registering it again is refused, whatever the username. */
  lemma RegisterTwice(s: Store, username: string, email: string, hash: string, username': string, hash': string)
    requires Register(s, username, email, hash).reply.Registered?
    ensures var s' := Register(s, username, email, hash).store;
      Register(s', username', email, hash').reply == EmailTaken
  {
    var s' := Register(s, username, email, hash).store;
    assert s'.users[s.nextUserId].email == email;
  }
}
