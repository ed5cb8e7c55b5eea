/** The staff user registry: usernames are unique, passwords are stored encoded. */
module Users {
  import opened Wrappers
  import opened Reservations

  datatype UserRole = ADMIN | RECEPTIONIST | MANAGER

  datatype User = User(
    id: Option<int>,
    username: Option<string>,
    password: Option<string>,
    fullName: Option<string>,
    role: Option<UserRole>,
    active: bool,
    createdAt: Option<Instant>)

  /** A user as constructed: nothing set but `active`, which defaults to true. */
  const NewUser: User := User(None, None, None, None, None, true, None)

  /** `existsByUsername`. */
  predicate ExistsByUsername(users: seq<User>, username: string): (b: bool)
    ensures b <==> exists u :: u in users && u.username == Some(username)
  {
    exists i :: 0 <= i < |users| && users[i].username == Some(username)
  }

  /** `findByUsername`: the first user with that name, if any. */
  function FindUser(users: seq<User>, username: string): (found: Option<User>)
    ensures found.Some? ==> found.value in users && found.value.username == Some(username)
    ensures found.None? <==> !ExistsByUsername(users, username)
  {
    if users == [] then None
    else if users[0].username == Some(username) then Some(users[0])
    else
      var rest := FindUser(users[1..], username);
      assert forall i :: 1 <= i < |users| ==> users[i] == users[1..][i - 1];
      assert ExistsByUsername(users[1..], username) ==> ExistsByUsername(users, username) by {
        if ExistsByUsername(users[1..], username) {
          var i :| 0 <= i < |users[1..]| && users[1..][i].username == Some(username);
          assert users[i + 1].username == Some(username);
        }
      }
      rest
  }

  /** No two users share a username. */
  ghost predicate DistinctUsernames(users: seq<User>) {
    forall i, j :: 0 <= i < |users| && 0 <= j < |users| && i != j ==> users[i].username != users[j].username
  }

  /** With distinct usernames, the lookup finds the one user of that name. */
  lemma {:induction false} FindUserIsTheOnlyMatch(users: seq<User>, i: nat, username: string)
    requires DistinctUsernames(users)
    requires i < |users| && users[i].username == Some(username)
    ensures FindUser(users, username) == Some(users[i])
  {
    if i > 0 {
      assert users[0].username != Some(username);
      assert DistinctUsernames(users[1..]) by {
        forall a, b | 0 <= a < |users[1..]| && 0 <= b < |users[1..]| && a != b
          ensures users[1..][a].username != users[1..][b].username
        {
          assert users[1..][a] == users[a + 1] && users[1..][b] == users[b + 1];
        }
      }
      FindUserIsTheOnlyMatch(users[1..], i - 1, username);
    }
  }

  /** The exceptions of the registry: the service's own, and the store's constraint failure. */
  datatype UserError = RuntimeException(message: string) | DataIntegrityViolation

  /** The users table, numbered from 1 by its identity column. */
  class UserRepository {
    var users: seq<User>

    ghost predicate Valid()
      reads this
    {
      && (forall i :: 0 <= i < |users| ==> users[i].id == Some(i + 1))
      && DistinctUsernames(users)
    }

    constructor ()
      ensures Valid() && users == []
    {
      users := [];
    }

    /**
     * `save` of a new user: the pre-persist hook stamps `createdAt` and the row takes the next id,
     * unless the username is missing or taken, which the unique, non-null column rejects.
     */
    method Save(user: User, now: Instant) returns (result: Result<User, UserError>)
      requires Valid()
      modifies this
      ensures Valid()
      ensures user.username.Some? && !ExistsByUsername(old(users), user.username.value) ==>
        var saved := user.(id := Some(|old(users)| + 1), createdAt := Some(now));
        result == Success(saved) && users == old(users) + [saved]
      ensures user.username.None? || ExistsByUsername(old(users), user.username.value) ==>
        result == Failure(DataIntegrityViolation) && users == old(users)
    {
      if user.username.None? || FindUser(users, user.username.value).Some? {
        return Failure(DataIntegrityViolation);
      }
      var saved := user.(id := Some(|users| + 1), createdAt := Some(now));
      users := users + [saved];
      result := Success(saved);
    }
  }

  class UserService {
    const userRepository: UserRepository
    /** The password encoder, whose algorithm is not modelled. */
    const encode: string -> string

    constructor (userRepository: UserRepository, encode: string -> string)
      ensures this.userRepository == userRepository && this.encode == encode
    {
      this.userRepository := userRepository;
      this.encode := encode;
    }

    /**
     * `createUser`: refuses a taken username and stores nothing; otherwise stores one active
     * user holding the encoded password.
     */
    method CreateUser(username: string, password: string, fullName: string, role: UserRole, now: Instant)
      returns (result: Result<User, UserError>)
      requires userRepository.Valid()
      modifies userRepository
      ensures userRepository.Valid()
      ensures ExistsByUsername(old(userRepository.users), username) ==>
        result == Failure(RuntimeException("Username already exists")) && userRepository.users == old(userRepository.users)
      ensures !ExistsByUsername(old(userRepository.users), username) ==>
        var u := User(Some(|old(userRepository.users)| + 1), Some(username), Some(encode(password)),
                      Some(fullName), Some(role), true, Some(now));
        result == Success(u) && userRepository.users == old(userRepository.users) + [u]
    {
      if FindUser(userRepository.users, username).Some? {
        return Failure(RuntimeException("Username already exists"));
      }
      var user := NewUser;
      user := user.(username := Some(username));
      user := user.(password := Some(encode(password)));
      user := user.(fullName := Some(fullName));
      user := user.(role := Some(role));
      user := user.(active := true);
      result := userRepository.Save(user, now);
    }

    /** `findByUsername`: the user of that name, or "User not found". */
    function FindByUsername(username: string): (result: Result<User, UserError>)
      reads userRepository
      ensures result.Success? ==> result.value in userRepository.users && result.value.username == Some(username)
      ensures result.Failure? <==> !ExistsByUsername(userRepository.users, username)
      ensures result.Failure? ==> result.error == RuntimeException("User not found: " + username)
    {
      match FindUser(userRepository.users, username)
      case None => Failure(RuntimeException("User not found: " + username))
      case Some(u) => Success(u)
    }
  }
}
