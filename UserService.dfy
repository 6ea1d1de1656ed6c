/**
 * `UserServiceImpl`: create, update, delete and look up users in the user
 * table, and list them a page at a time.
 */
module UserService {

  import opened Wrappers
  import opened JavaLang
  import opened Entities
  import opened Exceptions
  import opened AppConstants
  import opened PageHelper
  import opened Listing
  import opened Persistence

  // ---------------------------------------------------------------------------
  // The records the operations store

  /**
   * The user `createUser` saves: the DTO's fields under the generated id,
   * holding exactly the `ROLE_USER` role. Mapped back, it is the DTO it came
   * from with the generated id written in.
   */
  function NewUser(dto: UserDto, userId: string, role: Role): (u: User)
    ensures u.id == userId && u.roles == {role}
    ensures UserToDto(u) == dto.(userId := userId)
  {
    UserFromDto(dto.(userId := userId)).(roles := {role})
  }

  /**
   * The user `updateUser` saves: name, about, gender and image taken from
   * the DTO, email and password taken trimmed; the id and the roles kept.
   * The DTO's own `userId` plays no part.
   */
  function UpdatedUser(u: User, dto: UserDto): (r: User)
    ensures r.id == u.id && r.roles == u.roles
    ensures r.name == dto.name && r.about == dto.about && r.gender == dto.gender && r.image == dto.image
    ensures r.email == Trim(dto.email) && r.password == Trim(dto.password)
  {
    u.(name := dto.name, email := Trim(dto.email), password := Trim(dto.password),
       about := dto.about, gender := dto.gender, image := dto.image)
  }

  /**
   * Sending back the DTO an update returned changes nothing: the stored
   * email and password are already trimmed.
   */
  lemma ResubmittedUpdateIsNoOp(u: User, dto: UserDto)
    ensures var r := UpdatedUser(u, dto);
            UpdatedUser(r, UserToDto(r)) == r
  {
    TrimIdempotent(dto.email);
    TrimIdempotent(dto.password);
  }

  /** The ids of the users that satisfy `matches`. */
  function Matching(users: map<string, User>, matches: User -> bool): (ids: set<string>)
    ensures forall id :: id in ids <==> id in users && matches(users[id])
  {
    set id | id in users && matches(users[id])
  }

  // ---------------------------------------------------------------------------
  // Deleting a user, as the entity mapping makes it behave

  /**
   * Some user other than `userId` holds a role with the id of `role`: the
   * join table refers to the role row by its id.
   */
  predicate HeldElsewhere(users: map<string, User>, userId: string, role: Role)
  {
    exists other, held | other in users && held in users[other].roles ::
      other != userId && held.roleId == role.roleId
  }

  /**
   * `deleteUser` as the `User` entity maps it: the role set is mapped with
   * `CascadeType.ALL`, so removing the user also removes each of its roles
   * from the role table. The delete is refused by the database when another
   * user still holds one of those roles, and otherwise takes the roles with
   * it. Answers the new user and role tables.
   */
  function DeleteUserCascading(users: map<string, User>, roles: map<int, Role>, userId: string)
    : (r: Result<(map<string, User>, map<int, Role>), Exception>)
    ensures r == Failure(ResourceNotFound("User", "UserID", userId)) <==> userId !in users
    ensures r.Success? <==>
              userId in users && !exists role :: role in users[userId].roles && HeldElsewhere(users, userId, role)
    ensures r.Success? ==> userId in users && r.value.0 == users - {userId}
    ensures r.Success? ==> forall id :: id in r.value.1 <==>
                             id in roles && forall role :: role in users[userId].roles ==> role.roleId != id
    ensures r.Success? ==> forall id :: id in r.value.1 ==> r.value.1[id] == roles[id]
    ensures r == Failure(DataIntegrityViolation) <==>
              userId in users && exists role :: role in users[userId].roles && HeldElsewhere(users, userId, role)
  {
    if userId !in users then Failure(ResourceNotFound("User", "UserID", userId))
    else
      var held := users[userId].roles;
      if exists role | role in held :: HeldElsewhere(users, userId, role) then Failure(DataIntegrityViolation)
      else Success((users - {userId}, roles - set role | role in held :: role.roleId))
  }

  /**
   * The only user holding `ROLE_USER` deleted as the mapping has it: the
   * role row goes too, after which every `createUser` fails on
   * `findById(ROLE_USER).get()`.
   */
  lemma DeletingSoleUserDropsTheRole(u: User, role: Role)
    requires u.roles == {role}
    ensures var r := DeleteUserCascading(map[u.id := u], map[role.roleId := role], u.id);
            r == Success((map[], map[]))
  {
    var users := map[u.id := u];
    assert !HeldElsewhere(users, u.id, role);
    var r := DeleteUserCascading(users, map[role.roleId := role], u.id);
    assert r.value.0 == map[];
    assert r.value.1 == map[];
  }

  /**
   * Two users holding the same role row, even through differently loaded
   * `Role` values with one id: deleting either is refused.
   */
  lemma DeletingOneOfTwoUsersIsRefused(u: User, v: User, role: Role, same: Role)
    requires u.id != v.id && role in u.roles && same in v.roles && same.roleId == role.roleId
    ensures DeleteUserCascading(map[u.id := u, v.id := v], map[role.roleId := role], u.id)
              == Failure(DataIntegrityViolation)
  {
    var users := map[u.id := u, v.id := v];
    assert v.id in users && users[v.id] == v;
    assert HeldElsewhere(users, u.id, role);
  }

  // ---------------------------------------------------------------------------
  // Listings

  /**
   * `getAllUsers`: one page of every user, in the requested order. Fails
   * only with the page error; on success it is the storage's page mapped to
   * DTOs.
   */
  function GetAllUsers(p: PageParams, findAll: Storage<User>): (r: Result<PageResponse<UserDto>, Exception>)
    ensures r.Failure? ==> r.error == IllegalArguments(PageErrorMsg)
    ensures r.Success? <==> PageRequestOf(p).Some? && findAll(PageRequestOf(p).value).Some?
    ensures r.Success? ==> var page := findAll(PageRequestOf(p).value).value;
                           && |r.value.content| == |page.content|
                           && (forall i :: 0 <= i < |page.content| ==> r.value.content[i] == UserToDto(page.content[i]))
                           && r.value.totalElements == page.totalElements && r.value.lastPage == page.isLast
                           && r.value.pageSize == page.size && r.value.totalPages == page.totalPages
                           && r.value.pageNumber == Wrap32(page.number + 1)
  {
    var r := ListPage(p, findAll, UserToDto);
    if r.Success? then ListPageWrapsStoragePage(p, findAll, UserToDto); r else r
  }

  /** The repository's `findByNameContaining(keyword, pageable)`, bound to one keyword. */
  function NameQuery(keyword: string, find: (string, PageQuery) -> Option<StoragePage<User>>): Storage<User>
  {
    (q: PageQuery) => find(keyword, q)
  }

  /** `byNameContaining`: one page of the users whose name contains `keyword`. */
  function ByNameContaining(keyword: string, p: PageParams, find: (string, PageQuery) -> Option<StoragePage<User>>)
    : (r: Result<PageResponse<UserDto>, Exception>)
    ensures r.Failure? ==> r.error == IllegalArguments(PageErrorMsg)
    ensures r.Success? <==> PageRequestOf(p).Some? && find(keyword, PageRequestOf(p).value).Some?
    ensures r.Success? ==> var page := find(keyword, PageRequestOf(p).value).value;
                           && |r.value.content| == |page.content|
                           && (forall i :: 0 <= i < |page.content| ==> r.value.content[i] == UserToDto(page.content[i]))
                           && r.value.totalElements == page.totalElements && r.value.lastPage == page.isLast
                           && r.value.pageSize == page.size && r.value.totalPages == page.totalPages
                           && r.value.pageNumber == Wrap32(page.number + 1)
  {
    var r := ListPage(p, NameQuery(keyword, find), UserToDto);
    if r.Success? then ListPageWrapsStoragePage(p, NameQuery(keyword, find), UserToDto); r else r
  }

  /**
   * When the repository's query keeps only users whose name contains the
   * keyword, every user listed has a name containing the keyword.
   */
  lemma ByNameContainingOnlyMatches(keyword: string, p: PageParams, find: (string, PageQuery) -> Option<StoragePage<User>>)
    requires OnlyMatching(NameQuery(keyword, find), (u: User) => Contains(u.name, keyword))
    ensures var r := ByNameContaining(keyword, p, find);
            r.Success? ==> forall i :: 0 <= i < |r.value.content| ==> Contains(r.value.content[i].name, keyword)
  {
    ListedOnlyMatching(p, NameQuery(keyword, find), UserToDto,
                       (u: User) => Contains(u.name, keyword), (d: UserDto) => Contains(d.name, keyword));
  }

  // ---------------------------------------------------------------------------
  // The service

  class UserServiceImpl {
    const db: Database
    /** The id of the role every new user gets, `AppConstants.ROLE_USER`. */
    const roleUser: int

    constructor(db: Database, roleUser: int)
      ensures this.db == db && this.roleUser == roleUser
    {
      this.db := db;
      this.roleUser := roleUser;
    }

    /**
     * `createUser`: saves the DTO under the generated id `userId` with the
     * `ROLE_USER` role, and answers the saved user's DTO. Fails with
     * `NoSuchElementException`, saving nothing, when that role is not in
     * the role table.
     */
    method CreateUser(dto: UserDto, userId: string) returns (r: Result<UserDto, Exception>)
      requires db.Valid()
      modifies db`users
      ensures db.Valid()
      ensures roleUser !in db.roles ==> r == Failure(NoSuchElement) && db.users == old(db.users)
      ensures roleUser in db.roles ==>
                var u := NewUser(dto, userId, db.roles[roleUser]);
                r == Success(UserToDto(u)) && db.users == old(db.users)[userId := u]
    {
      if roleUser !in db.roles {
        return Failure(NoSuchElement);
      }
      var u := NewUser(dto, userId, db.roles[roleUser]);
      db.users := db.users[userId := u];
      r := Success(UserToDto(u));
    }

    /**
     * `updateUser`: overwrites the user's editable fields from the DTO and
     * answers the result; an unknown id fails with not-found and changes
     * nothing.
     */
    method UpdateUser(dto: UserDto, userId: string) returns (r: Result<UserDto, Exception>)
      requires db.Valid()
      modifies db`users
      ensures db.Valid()
      ensures userId !in old(db.users) ==>
                r == Failure(ResourceNotFound("User", "UserID", userId)) && db.users == old(db.users)
      ensures userId in old(db.users) ==>
                var u := UpdatedUser(old(db.users)[userId], dto);
                r == Success(UserToDto(u)) && db.users == old(db.users)[userId := u]
    {
      if userId !in db.users {
        return Failure(ResourceNotFound("User", "UserID", userId));
      }
      var u := UpdatedUser(db.users[userId], dto);
      db.users := db.users[userId := u];
      r := Success(UserToDto(u));
    }

    /**
     * `deleteUser`, as evidently intended: removes that user and nothing
     * else (the role table is untouched); an unknown id fails with
     * not-found and changes nothing.
     */
    method DeleteUser(userId: string) returns (r: Result<(), Exception>)
      requires db.Valid()
      modifies db`users
      ensures db.Valid()
      ensures r.Failure? <==> userId !in old(db.users)
      ensures r.Failure? ==> r.error == ResourceNotFound("User", "UserID", userId) && db.users == old(db.users)
      ensures r.Success? ==> db.users == old(db.users) - {userId} && db.roles == old(db.roles)
    {
      if userId !in db.users {
        return Failure(ResourceNotFound("User", "UserID", userId));
      }
      db.users := db.users - {userId};
      r := Success(());
    }

    /** `getUserById`: the stored user's DTO, or not-found. */
    method GetUserById(userId: string) returns (r: Result<UserDto, Exception>)
      requires db.Valid()
      ensures r.Success? <==> userId in db.users
      ensures r.Success? ==> r.value.userId == userId && r.value == UserToDto(db.users[userId])
      ensures r.Failure? ==> r.error == ResourceNotFound("User", "UserID", userId)
    {
      if userId !in db.users {
        return Failure(ResourceNotFound("User", "UserID", userId));
      }
      r := Success(UserToDto(db.users[userId]));
    }

    /**
     * A single-result query: the one matching user's DTO; `notFound` when
     * no user matches; `IncorrectResultSizeDataAccessException` when several do.
     */
    method SingleMatch(matches: User -> bool, notFound: Exception) returns (r: Result<UserDto, Exception>)
      requires db.Valid()
      ensures var ids := Matching(db.users, matches);
              && (r.Success? <==> |ids| == 1)
              && (|ids| == 0 ==> r == Failure(notFound))
              && (|ids| >= 2 ==> r == Failure(IncorrectResultSize))
              && (r.Success? ==> r.value.userId in ids && r.value == UserToDto(db.users[r.value.userId]))
    {
      var ids := Matching(db.users, matches);
      if |ids| == 0 {
        return Failure(notFound);
      } else if |ids| >= 2 {
        return Failure(IncorrectResultSize);
      }
      var id :| id in ids;
      r := Success(UserToDto(db.users[id]));
    }

    /**
     * `getUserByEmail`: the DTO of the one user with exactly that email;
     * not-found on the email when there is none.
     */
    method GetUserByEmail(email: string) returns (r: Result<UserDto, Exception>)
      requires db.Valid()
      ensures var ids := Matching(db.users, (u: User) => u.email == email);
              && (r.Success? <==> |ids| == 1)
              && (|ids| == 0 ==> r == Failure(ResourceNotFound("User", "Email", email)))
              && (|ids| >= 2 ==> r == Failure(IncorrectResultSize))
              && (r.Success? ==> r.value.email == email && r.value.userId in db.users
                                 && r.value == UserToDto(db.users[r.value.userId]))
    {
      r := SingleMatch((u: User) => u.email == email, ResourceNotFound("User", "Email", email));
    }

    /**
     * `getUserByEmailAndPassword`: the DTO of the one user with exactly that
     * email and password; not-found on the email when there is none.
     */
    method GetUserByEmailAndPassword(email: string, password: string) returns (r: Result<UserDto, Exception>)
      requires db.Valid()
      ensures var ids := Matching(db.users, (u: User) => u.email == email && u.password == password);
              && (r.Success? <==> |ids| == 1)
              && (|ids| == 0 ==> r == Failure(ResourceNotFound("User", "Email", email)))
              && (|ids| >= 2 ==> r == Failure(IncorrectResultSize))
              && (r.Success? ==> r.value.email == email && r.value.password == password
                                 && r.value.userId in db.users && r.value == UserToDto(db.users[r.value.userId]))
    {
      r := SingleMatch((u: User) => u.email == email && u.password == password, ResourceNotFound("User", "Email", email));
    }
  }
}
