/**
 * The admin handlers of the backend over an abstract user store: each handler
 * takes the store and the request's fields and gives back the response and
 * the store afterwards. A request field is None when it is absent.
 */
module AdminController {
  import opened Wrappers
  import DeviceStatusModel

  type UserId = nat
  type DeviceId = DeviceStatusModel.DeviceId

  datatype User = User(name: string, email: string, password: string, role: string)

  /** The users table, keyed by its serial id. */
  type Store = map<UserId, User>

  const DefaultRole := "user"

  /** A device as the user model lists it, before its status is overlaid. */
  datatype Device = Device(deviceId: DeviceId, userId: UserId, userName: string, userEmail: string)

  /** A listed device with the fields of its status row laid over it. */
  datatype DeviceWithStatus = DeviceWithStatus(
    device: Device, isOnline: bool,
    lastHeartbeat: Option<DeviceStatusModel.Time>, lastNotificationSync: Option<DeviceStatusModel.Time>)

  datatype Body =
    | Message(message: string)
    | UserBody(message: string, user: User)
    | RoleBody(message: string, id: UserId, role: string)
    | DevicesBody(message: string, devices: seq<DeviceWithStatus>)

  datatype Response = Response(status: int, body: Body)

  /** A handler's response together with the store it leaves behind. */
  datatype Outcome = Outcome(response: Response, store: Store)

  /** A string field passes the handlers' `!field` test: present and not empty. */
  predicate Given(field: Option<string>) {
    field.Some? && field.value != ""
  }

  /** findUserByEmail finds someone. */
  predicate EmailInUse(s: Store, email: string) {
    exists u :: u in s && s[u].email == email
  }

  /** findUserByEmail finds a user other than `id`. */
  predicate EmailTakenByOther(s: Store, email: string, id: UserId) {
    exists u :: u in s && u != id && s[u].email == email
  }

  /** The UNIQUE constraint on users.email. */
  ghost predicate EmailsUnique(s: Store) {
    forall a, b :: a in s && b in s && a != b ==> s[a].email != s[b].email
  }

  /**
   * createUserHandler. Missing name, email or password, or an email already in
   * use, give 400 and leave the store alone; otherwise the user is stored under
   * the id the database hands out, with role "user" unless one was sent, and
   * the answer is 201. An id already in use makes the insert fail: 500.
   */
  function CreateUser(s: Store, name: Option<string>, email: Option<string>, password: Option<string>,
                      role: Option<string>, newId: UserId): (r: Outcome)
    ensures r.response.status in {201, 400, 500}
    ensures r.response.status != 201 ==> r.store == s
    ensures !Given(name) || !Given(email) || !Given(password) ==> r.response.status == 400
    ensures Given(name) && Given(email) && Given(password) ==>
      (r.response.status == 201 <==> !EmailInUse(s, email.value) && newId !in s)
    ensures Given(name) && Given(email) && Given(password) && EmailInUse(s, email.value) ==> r.response.status == 400
    ensures Given(name) && Given(email) && Given(password) && !EmailInUse(s, email.value) && newId in s ==> r.response.status == 500
    ensures r.response.status == 201 ==>
      && var user := User(name.value, email.value, password.value, if role.Some? then role.value else DefaultRole);
      && r.store == s[newId := user]
      && r.response.body == UserBody("User created successfully", user)
  {
    if !Given(name) || !Given(email) || !Given(password) then
      Outcome(Response(400, Message("Name, email, and password are required")), s)
    else if EmailInUse(s, email.value) then
      Outcome(Response(400, Message("User with this email already exists")), s)
    else if newId in s then
      Outcome(Response(500, Message("Internal server error")), s)
    else
      var user := User(name.value, email.value, password.value, Elvis(role, DefaultRole));
      Outcome(Response(201, UserBody("User created successfully", user)), s[newId := user])
  }

  /**
   * updateUserHandler, checked in this order: no id or a missing name, email
   * or role give 400; an unknown id 404; an email held by another user 400;
   * otherwise the user's name, email and role are replaced and the answer is 200.
   */
  function UpdateUser(s: Store, id: Option<UserId>, name: Option<string>, email: Option<string>,
                      role: Option<string>): (r: Outcome)
    ensures r.response.status in {200, 400, 404}
    ensures r.response.status != 200 ==> r.store == s
    ensures id.None? || !Given(name) || !Given(email) || !Given(role) ==> r.response.status == 400
    ensures id.Some? && Given(name) && Given(email) && Given(role) && id.value !in s ==> r.response.status == 404
    ensures id.Some? && Given(name) && Given(email) && Given(role) && id.value in s ==>
      (r.response.status == 200 <==> !EmailTakenByOther(s, email.value, id.value))
    ensures id.Some? && Given(name) && Given(email) && Given(role) && id.value in s && EmailTakenByOther(s, email.value, id.value) ==> r.response.status == 400
    ensures r.response.status == 200 ==>
      && id.Some? && id.value in s
      && r.store == s[id.value := s[id.value].(name := name.value, email := email.value, role := role.value)]
  {
    if id.None? then
      Outcome(Response(400, Message("User ID is required")), s)
    else if !Given(name) || !Given(email) || !Given(role) then
      Outcome(Response(400, Message("Name, email, and role are required")), s)
    else if id.value !in s then
      Outcome(Response(404, Message("User not found")), s)
    else if EmailTakenByOther(s, email.value, id.value) then
      Outcome(Response(400, Message("Email already taken by another user")), s)
    else
      var user := s[id.value].(name := name.value, email := email.value, role := role.value);
      Outcome(Response(200, UserBody("User updated successfully", user)), s[id.value := user])
  }

  /**
   * A user may keep their own email: with unique emails, an update of an
   * existing user (whose stored email, like every stored one, passed the
   * handlers' check) that sends that user's current email succeeds.
   */
  lemma KeepingOwnEmailIsAllowed(s: Store, id: UserId, name: string, role: string)
    requires EmailsUnique(s) && id in s && s[id].email != ""
    requires name != "" && role != ""
    ensures UpdateUser(s, Some(id), Some(name), Some(s[id].email), Some(role)).response.status == 200
  {
  }

  /**
   * The read after the writes: a user just created reads back as stored
   * under the new id, and a user just deleted is not found.
   */
  lemma ReadAfterCreateOrDelete(s: Store, name: Option<string>, email: Option<string>, password: Option<string>,
                                role: Option<string>, newId: UserId, id: UserId)
    ensures var c := CreateUser(s, name, email, password, role, newId);
      c.response.status == 201 ==>
        && GetUserById(c.store, Some(newId)).status == 200
        && GetUserById(c.store, Some(newId)).body.user == c.response.body.user
    ensures GetUserById(DeleteUser(s, Some(id)).store, Some(id)).status == 404
  {
  }

  /**
   * deleteUserHandler: no id gives 400, an unknown id 404 with nothing
   * changed; otherwise exactly that user is removed and the answer is 200.
   */
  function DeleteUser(s: Store, id: Option<UserId>): (r: Outcome)
    ensures id.None? ==> r.response.status == 400 && r.store == s
    ensures id.Some? && id.value !in s ==> r.response.status == 404 && r.store == s
    ensures id.Some? && id.value in s ==>
      r.response.status == 200 && r.store.Keys == s.Keys - {id.value}
      && forall u :: u in r.store ==> r.store[u] == s[u]
  {
    if id.None? then
      Outcome(Response(400, Message("User ID is required")), s)
    else if id.value !in s then
      Outcome(Response(404, Message("User not found")), s)
    else
      Outcome(Response(200, Message("User deleted successfully")), s - {id.value})
  }

  /** getUserById: 400 without an id, 404 for an unknown one, else 200 with that user. */
  function GetUserById(s: Store, id: Option<UserId>): (r: Response)
    ensures id.None? ==> r.status == 400
    ensures id.Some? && id.value !in s ==> r.status == 404
    ensures id.Some? && id.value in s ==> r.status == 200 && r.body.UserBody? && r.body.user == s[id.value]
  {
    if id.None? then Response(400, Message("User ID is required"))
    else if id.value !in s then Response(404, Message("User not found"))
    else Response(200, UserBody("User fetched successfully", s[id.value]))
  }

  /**
   * updateUserRole: 400 without an id or a role; otherwise 200 echoing the id
   * and role, whether or not such a user exists. The store is never changed.
   */
  function UpdateUserRole(s: Store, id: Option<UserId>, role: Option<string>): (r: Outcome)
    ensures r.store == s
    ensures r.response.status == 200 <==> id.Some? && Given(role)
    ensures r.response.status != 200 ==> r.response.status == 400
    ensures r.response.status == 200 ==> r.response.body == RoleBody("User role updated successfully", id.value, role.value)
  {
    if id.None? then Outcome(Response(400, Message("User ID is required")), s)
    else if !Given(role) then Outcome(Response(400, Message("Role is required")), s)
    else Outcome(Response(200, RoleBody("User role updated successfully", id.value, role.value)), s)
  }

  /**
   * getDeviceStatus: each listed device with its status overlaid, in the same
   * order. A device without a status row makes reading its is_online throw,
   * and the whole answer is 500.
   */
  function GetDeviceStatus(devices: seq<Device>, t: DeviceStatusModel.Table, now: DeviceStatusModel.Time): (r: Response)
    ensures r.status == 200 <==> forall i :: 0 <= i < |devices| ==> devices[i].deviceId in t
    ensures r.status != 200 ==> r.status == 500
    ensures r.status == 200 ==>
      && r.body.DevicesBody? && |r.body.devices| == |devices|
      && forall i :: 0 <= i < |devices| ==>
        var row := t[devices[i].deviceId];
        r.body.devices[i] == DeviceWithStatus(devices[i], row.isOnline, row.lastHeartbeat, row.lastNotificationSync)
  {
    if exists i :: 0 <= i < |devices| && devices[i].deviceId !in t then
      Response(500, Message("Internal server error"))
    else
      var overlaid := seq(|devices|, i requires 0 <= i < |devices| =>
        var status := DeviceStatusModel.GetDeviceOnlineStatus(t, devices[i].deviceId, now).value;
        DeviceWithStatus(devices[i], status.isOnline, status.lastHeartbeat, status.lastNotificationSync));
      Response(200, DevicesBody("Device status fetched successfully", overlaid))
  }

  /** The store-changing admin requests. */
  datatype Request =
    | CreateRequest(name: Option<string>, email: Option<string>, password: Option<string>, role: Option<string>, newId: UserId)
    | UpdateRequest(id: Option<UserId>, name: Option<string>, email: Option<string>, role: Option<string>)
    | DeleteRequest(id: Option<UserId>)
    | RoleRequest(id: Option<UserId>, role: Option<string>)

  function Handle(s: Store, req: Request): Outcome {
    match req
    case CreateRequest(name, email, password, role, newId) => CreateUser(s, name, email, password, role, newId)
    case UpdateRequest(id, name, email, role) => UpdateUser(s, id, name, email, role)
    case DeleteRequest(id) => DeleteUser(s, id)
    case RoleRequest(id, role) => UpdateUserRole(s, id, role)
  }

  /** The store after serving the requests one after the other. */
  function HandleAll(s: Store, reqs: seq<Request>): Store
    decreases |reqs|
  {
    if reqs == [] then s else HandleAll(Handle(s, reqs[0]).store, reqs[1..])
  }

  /** Creating a user never lets two users share an email. */
  lemma CreatePreservesUniqueEmails(s: Store, name: Option<string>, email: Option<string>, password: Option<string>,
                                    role: Option<string>, newId: UserId)
    requires EmailsUnique(s)
    ensures EmailsUnique(CreateUser(s, name, email, password, role, newId).store)
  {
  }

  /** Updating a user never lets two users share an email. */
  lemma UpdatePreservesUniqueEmails(s: Store, id: Option<UserId>, name: Option<string>, email: Option<string>,
                                    role: Option<string>)
    requires EmailsUnique(s)
    ensures EmailsUnique(UpdateUser(s, id, name, email, role).store)
  {
  }

  /**
   * Any sequence of admin requests served against a store with unique emails
   * leaves a store with unique emails.
   */
  lemma {:induction false} HandlingPreservesUniqueEmails(s: Store, reqs: seq<Request>)
    requires EmailsUnique(s)
    ensures EmailsUnique(HandleAll(s, reqs))
    decreases |reqs|
  {
    if reqs != [] {
      var next := Handle(s, reqs[0]).store;
      match reqs[0] {
        case CreateRequest(name, email, password, role, newId) =>
          CreatePreservesUniqueEmails(s, name, email, password, role, newId);
        case UpdateRequest(id, name, email, role) =>
          UpdatePreservesUniqueEmails(s, id, name, email, role);
        case DeleteRequest(_) =>
        case RoleRequest(_, _) =>
      }
      HandlingPreservesUniqueEmails(next, reqs[1..]);
    }
  }
}
