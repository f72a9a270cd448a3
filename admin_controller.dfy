/** The admin account, the product catalogue and the dashboard statistics
    (controllers/adminController.js).  The admin model itself is not part
    of this model: an admin is reduced to the fields the controller reads
    and writes, and `matchPassword` to a comparison with the stored
    password. */
module AdminController {
  import opened Wrappers
  import opened Listing
  import opened OrderModel

  datatype Admin = Admin(
    id: string,
    email: string,
    password: string,
    resetToken: Option<string>,
    resetExpires: Option<int>)

  /** The position of the first item satisfying `p`, as `findOne` and
      `findById` return the first matching document. */
  function FirstWhere<T>(s: seq<T>, p: T -> bool): (r: Option<nat>)
    ensures r.None? <==> forall k :: 0 <= k < |s| ==> !p(s[k])
    ensures r.Some? ==> r.value < |s| && p(s[r.value])
    ensures r.Some? ==> forall k :: 0 <= k < r.value ==> !p(s[k])
  {
    if s == [] then None
    else if p(s[0]) then Some(0)
    else
      match FirstWhere(s[1..], p)
      case None => None
      case Some(k) => Some(k + 1)
  }

  function WithEmail(admins: seq<Admin>, email: string): Option<nat>
  {
    FirstWhere(admins, (a: Admin) => a.email == email)
  }

  function WithId(admins: seq<Admin>, id: string): Option<nat>
  {
    FirstWhere(admins, (a: Admin) => a.id == id)
  }

  /** The query `{ resetPasswordToken: token, resetPasswordExpires: { $gt: now } }`. */
  predicate TokenValid(a: Admin, token: string, now: int)
  {
    a.resetToken == Some(token) && a.resetExpires.Some? && a.resetExpires.value > now
  }

  function WithValidToken(admins: seq<Admin>, token: string, now: int): Option<nat>
  {
    FirstWhere(admins, (a: Admin) => TokenValid(a, token, now))
  }

  /** No two admins share an email address. */
  predicate EmailsUnique(admins: seq<Admin>)
  {
    forall i, j :: 0 <= i < j < |admins| ==> admins[i].email != admins[j].email
  }

  /** What `jwt.sign` puts in a login token. */
  datatype TokenClaims = TokenClaims(id: string, role: string)

  const ADMIN_ROLE := "admin"
  const RESET_WINDOW: int := 3600000
  const RESET_SUBJECT := "\U{1F511} Password Reset Request"

  /** The reset mail: its recipient and the token its link carries. */
  datatype ResetMail = ResetMail(to: string, subject: string, token: string)

  /** The caller's id as the auth middleware left it (`req.admin.id`). */
  predicate Authenticated(caller: Option<string>)
  {
    caller.Some? && caller.value != ""
  }

  const UNAUTHENTICATED := "Unauthorized: Admin not authenticated"

  /** An admin after a successful reset: the new password, and the token
      and its expiry cleared. */
  function AfterReset(a: Admin, newPassword: string): Admin
  {
    a.(password := newPassword, resetToken := None, resetExpires := None)
  }

  /** The admins collection. */
  class AdminStore {
    var admins: seq<Admin>

    constructor (admins: seq<Admin>)
      ensures this.admins == admins
    {
      this.admins := admins;
    }

    /** `loginAdmin`: an unknown email and a wrong password give the same
        answer, so a caller cannot tell which one failed. */
    function Login(email: string, password: string): (r: Reply<TokenClaims>)
      reads this
      ensures email == "" || password == "" ==>
                r == Failure(BAD_REQUEST, "Email and password are required")
      ensures email != "" && password != "" ==>
                (r.Success? <==> WithEmail(admins, email).Some? &&
                                 admins[WithEmail(admins, email).value].password == password)
      ensures email != "" && password != "" && r.Failure? ==>
                r == Failure(BAD_REQUEST, "Invalid credentials")
      ensures r.Success? ==>
                r.status == OK && r.value.role == ADMIN_ROLE &&
                exists i :: 0 <= i < |admins| && admins[i].id == r.value.id &&
                            admins[i].email == email && admins[i].password == password
    ensures r.Success? ==> r.value.id == admins[WithEmail(admins, email).value].id
    {
      if email == "" || password == "" then Failure(BAD_REQUEST, "Email and password are required")
      else
        match WithEmail(admins, email)
        case None => Failure(BAD_REQUEST, "Invalid credentials")
        case Some(i) =>
          if admins[i].password != password then Failure(BAD_REQUEST, "Invalid credentials")
          else Success(OK, TokenClaims(admins[i].id, ADMIN_ROLE))
    }

    /** `changePassword`: the checks fire in the order fields, caller,
        admin, current password, confirmation; only when all pass is the
        password replaced, and nothing else changes. */
    method ChangePassword(caller: Option<string>, currentPassword: string, newPassword: string,
                          confirmPassword: string)
      returns (r: Reply<string>)
      modifies this
      ensures currentPassword == "" || newPassword == "" || confirmPassword == "" ==>
                r == Failure(BAD_REQUEST, "All fields are required") && admins == old(admins)
      ensures currentPassword != "" && newPassword != "" && confirmPassword != "" ==>
                if !Authenticated(caller) then
                  r == Failure(UNAUTHORIZED, UNAUTHENTICATED) && admins == old(admins)
                else if WithId(old(admins), caller.value).None? then
                  r == Failure(NOT_FOUND, "Admin not found") && admins == old(admins)
                else
                  var i := WithId(old(admins), caller.value).value;
                  if old(admins)[i].password != currentPassword then
                    r == Failure(BAD_REQUEST, "Current password is incorrect") && admins == old(admins)
                  else if newPassword != confirmPassword then
                    r == Failure(BAD_REQUEST, "New password and confirm password do not match") &&
                    admins == old(admins)
                  else
                    r == Success(OK, "Password updated successfully") &&
                    admins == old(admins)[i := old(admins)[i].(password := newPassword)]
    {
      if currentPassword == "" || newPassword == "" || confirmPassword == "" {
        return Failure(BAD_REQUEST, "All fields are required");
      }
      if !Authenticated(caller) {
        return Failure(UNAUTHORIZED, UNAUTHENTICATED);
      }
      var found := WithId(admins, caller.value);
      if found.None? {
        return Failure(NOT_FOUND, "Admin not found");
      }
      var i := found.value;
      if admins[i].password != currentPassword {
        return Failure(BAD_REQUEST, "Current password is incorrect");
      }
      if newPassword != confirmPassword {
        return Failure(BAD_REQUEST, "New password and confirm password do not match");
      }
      admins := admins[i := admins[i].(password := newPassword)];
      r := Success(OK, "Password updated successfully");
    }

    /** `updateEmail`: refused when the first admin holding the address is
        another admin; re-submitting one's own address is accepted.  So the
        update never makes two admins share an address. */
    method UpdateEmail(caller: Option<string>, newEmail: string) returns (r: Reply<string>)
      modifies this
      ensures newEmail == "" ==> r == Failure(BAD_REQUEST, "New email is required") && admins == old(admins)
      ensures newEmail != "" ==>
                if !Authenticated(caller) then
                  r == Failure(UNAUTHORIZED, UNAUTHENTICATED) && admins == old(admins)
                else if WithId(old(admins), caller.value).None? then
                  r == Failure(NOT_FOUND, "Admin not found") && admins == old(admins)
                else
                  var i := WithId(old(admins), caller.value).value;
                  var holder := WithEmail(old(admins), newEmail);
                  if holder.Some? && old(admins)[holder.value].id != old(admins)[i].id then
                    r == Failure(BAD_REQUEST, "Email is already in use") && admins == old(admins)
                  else
                    r == Success(OK, "Email updated successfully") &&
                    admins == old(admins)[i := old(admins)[i].(email := newEmail)]
      ensures AdminIdsUnique(old(admins)) && EmailsUnique(old(admins)) ==> EmailsUnique(admins)
    {
      if newEmail == "" {
        return Failure(BAD_REQUEST, "New email is required");
      }
      if !Authenticated(caller) {
        return Failure(UNAUTHORIZED, UNAUTHENTICATED);
      }
      var found := WithId(admins, caller.value);
      if found.None? {
        return Failure(NOT_FOUND, "Admin not found");
      }
      var i := found.value;
      var holder := WithEmail(admins, newEmail);
      if holder.Some? && admins[holder.value].id != admins[i].id {
        return Failure(BAD_REQUEST, "Email is already in use");
      }
      ghost var before := admins;
      EmailChangeKeepsUnique(before, i, newEmail);
      admins := admins[i := admins[i].(email := newEmail)];
      r := Success(OK, "Email updated successfully");
    }

    /** `getAdminProfile`. */
    function GetAdminProfile(caller: Option<string>): (r: Reply<string>)
      reads this
      ensures !Authenticated(caller) ==> r == Failure(UNAUTHORIZED, UNAUTHENTICATED)
      ensures Authenticated(caller) ==>
                (r.Success? <==> exists i :: 0 <= i < |admins| && admins[i].id == caller.value)
      ensures Authenticated(caller) && r.Failure? ==> r == Failure(NOT_FOUND, "Admin not found")
      ensures r.Success? ==>
                r.status == OK && exists i :: 0 <= i < |admins| && admins[i].id == caller.value &&
                                              admins[i].email == r.value
    ensures r.Success? ==> r.value == admins[WithId(admins, caller.value).value].email
    {
      if !Authenticated(caller) then Failure(UNAUTHORIZED, UNAUTHENTICATED)
      else
        match WithId(admins, caller.value)
        case None => Failure(NOT_FOUND, "Admin not found")
        case Some(i) => Success(OK, admins[i].email)
    }

    /** `forgotPassword`: `token` is the random reset token, `now` the
        clock, `mailSent` the outcome of the awaited mail.  The token is
        stored before the mail goes out, so a failed send answers 500 with
        the token in place. */
    method ForgotPassword(email: string, token: string, now: int, mailSent: bool)
      returns (r: Reply<string>, mail: Option<ResetMail>)
      modifies this
      ensures email == "" ==>
                r == Failure(BAD_REQUEST, "Email is required") && mail.None? && admins == old(admins)
      ensures email != "" && WithEmail(old(admins), email).None? ==>
                r == Failure(NOT_FOUND, "Admin not found") && mail.None? && admins == old(admins)
      ensures email != "" && WithEmail(old(admins), email).Some? ==>
                var i := WithEmail(old(admins), email).value;
                && admins == old(admins)[i := old(admins)[i].(resetToken := Some(token),
                                                              resetExpires := Some(now + RESET_WINDOW))]
                && mail == Some(ResetMail(email, RESET_SUBJECT, token))
                && r == (if mailSent then Success(OK, "Password reset email sent")
                         else Failure(SERVER_ERROR, "Server error"))
    {
      mail := None;
      if email == "" {
        return Failure(BAD_REQUEST, "Email is required"), mail;
      }
      var found := WithEmail(admins, email);
      if found.None? {
        return Failure(NOT_FOUND, "Admin not found"), mail;
      }
      var i := found.value;
      var a := admins[i];
      a := a.(resetToken := Some(token));
      a := a.(resetExpires := Some(now + RESET_WINDOW));
      admins := admins[i := a];
      mail := Some(ResetMail(email, RESET_SUBJECT, token));
      if !mailSent {
        return Failure(SERVER_ERROR, "Server error"), mail;
      }
      r := Success(OK, "Password reset email sent");
    }

    /** `verifyResetToken` at time `now`. */
    function VerifyResetToken(token: string, now: int): (r: Reply<string>)
      reads this
      ensures token == "" ==> r == Failure(BAD_REQUEST, "Token is required")
      ensures token != "" ==>
                (r.Success? <==> exists i :: 0 <= i < |admins| && TokenValid(admins[i], token, now))
      ensures token != "" && r.Failure? ==> r == Failure(BAD_REQUEST, "Token is invalid or expired")
      ensures r.Success? ==> r == Success(OK, "Token is valid")
    {
      if token == "" then Failure(BAD_REQUEST, "Token is required")
      else if WithValidToken(admins, token, now).None? then Failure(BAD_REQUEST, "Token is invalid or expired")
      else Success(OK, "Token is valid")
    }

    /** `resetPassword` at time `now`: the two passwords are compared
        before the token is looked up. */
    method ResetPassword(token: string, newPassword: string, confirmPassword: string, now: int)
      returns (r: Reply<string>)
      modifies this
      ensures token == "" || newPassword == "" || confirmPassword == "" ==>
                r == Failure(BAD_REQUEST, "All fields are required") && admins == old(admins)
      ensures token != "" && newPassword != "" && confirmPassword != "" && newPassword != confirmPassword ==>
                r == Failure(BAD_REQUEST, "Passwords do not match") && admins == old(admins)
      ensures token != "" && newPassword != "" && newPassword == confirmPassword ==>
                match WithValidToken(old(admins), token, now)
                case None =>
                  r == Failure(BAD_REQUEST, "Invalid or expired token") && admins == old(admins)
                case Some(i) =>
                  r == Success(OK, "Password reset successful") &&
                  admins == old(admins)[i := AfterReset(old(admins)[i], newPassword)]
    {
      if token == "" || newPassword == "" || confirmPassword == "" {
        return Failure(BAD_REQUEST, "All fields are required");
      }
      if newPassword != confirmPassword {
        return Failure(BAD_REQUEST, "Passwords do not match");
      }
      var found := WithValidToken(admins, token, now);
      if found.None? {
        return Failure(BAD_REQUEST, "Invalid or expired token");
      }
      var i := found.value;
      admins := admins[i := AfterReset(admins[i], newPassword)];
      r := Success(OK, "Password reset successful");
    }
  }

  // ---------------------------------------------------------------------
  // Properties of the admin rules

  /** No two admins share an `_id`. */
  predicate AdminIdsUnique(admins: seq<Admin>)
  {
    forall i, j :: 0 <= i < j < |admins| ==> admins[i].id != admins[j].id
  }

  /** Changing admin `i`'s address to one whose first holder, if any, is
      `i` itself keeps the addresses unique. */
  lemma EmailChangeKeepsUnique(admins: seq<Admin>, i: nat, newEmail: string)
    requires i < |admins|
    requires var h := WithEmail(admins, newEmail); h.None? || admins[h.value].id == admins[i].id
    ensures AdminIdsUnique(admins) && EmailsUnique(admins) ==>
              EmailsUnique(admins[i := admins[i].(email := newEmail)])
  {
    if AdminIdsUnique(admins) && EmailsUnique(admins) {
      assert forall k :: 0 <= k < |admins| && k != i ==> admins[k].email != newEmail;
    }
  }

  /** A token stored by `forgotPassword` at `now` verifies exactly until
      `now + 3600000` (exclusive). */
  lemma ResetTokenWindow(a: Admin, token: string, now: int, t: int)
    ensures TokenValid(a.(resetToken := Some(token), resetExpires := Some(now + RESET_WINDOW)), token, t)
            <==> t < now + RESET_WINDOW
  {
  }

  /** After a reset the admin holds no token, so no token, the used one
      included, verifies for it again at any time. */
  lemma ResetTokenSingleUse(a: Admin, newPassword: string, token: string, t: int)
    ensures !TokenValid(AfterReset(a, newPassword), token, t)
    ensures AfterReset(a, newPassword).password == newPassword
    ensures AfterReset(a, newPassword).id == a.id && AfterReset(a, newPassword).email == a.email
  {
  }

  /** When no other admin holds the token, a successful reset makes every
      later verification of it fail. */
  lemma ResetTokenNotReusable(admins: seq<Admin>, i: nat, newPassword: string, token: string, t: int)
    requires i < |admins|
    requires forall k :: 0 <= k < |admins| && k != i ==> admins[k].resetToken != Some(token)
    ensures WithValidToken(admins[i := AfterReset(admins[i], newPassword)], token, t).None?
  {
    var after := admins[i := AfterReset(admins[i], newPassword)];
    forall k | 0 <= k < |after|
      ensures !TokenValid(after[k], token, t)
    {
      if k == i {
        ResetTokenSingleUse(admins[i], newPassword, token, t);
      }
    }
  }

  // ---------------------------------------------------------------------
  // Products

  /** A product; `price` is the `parseFloat` value that was stored. */
  datatype Product = Product(
    id: nat,
    name: string,
    price: real,
    description: string,
    image: string,
    createdAt: int,
    updatedAt: int)

  const PRICE_LIMIT: real := 1000000.0
  const PRICE_RANGE := "Price must be between 0 and 1,000,000"

  /** The price check on add and edit: `parseFloat` must give a number
      (`Some`) with `0 < price <= 1,000,000`. */
  predicate PriceAccepted(price: Option<real>)
  {
    price.Some? && 0.0 < price.value <= PRICE_LIMIT
  }

  function ProductCreatedAt(p: Product): int { p.createdAt }

  function WithProductId(products: seq<Product>, id: nat): Option<nat>
  {
    FirstWhere(products, (p: Product) => p.id == id)
  }

  /** The products collection.  `priceText` is the raw form field (checked
      for presence), `price` its `parseFloat` value (`None` for NaN). */
  class ProductStore {
    var products: seq<Product>
    var nextId: nat

    constructor ()
      ensures products == [] && nextId == 0
    {
      products := [];
      nextId := 0;
    }

    /** `addProduct`: all four fields, the uploaded image included, are
        required; the price must be in range. */
    method AddProduct(name: string, priceText: string, price: Option<real>, description: string,
                      image: Option<string>, now: int)
      returns (r: Reply<Product>)
      modifies this
      ensures name == "" || priceText == "" || description == "" || image.None? || image.value == "" ==>
                r == Failure(BAD_REQUEST, "All fields are required") &&
                products == old(products) && nextId == old(nextId)
      ensures name != "" && priceText != "" && description != "" && image.Some? && image.value != "" ==>
                if !PriceAccepted(price) then
                  r == Failure(BAD_REQUEST, PRICE_RANGE) && products == old(products) && nextId == old(nextId)
                else
                  var p := Product(old(nextId), name, price.value, description, image.value, now, now);
                  r == Success(CREATED, p) && products == old(products) + [p] && nextId == old(nextId) + 1
      ensures r.Success? ==> 0.0 < r.value.price <= PRICE_LIMIT
    {
      if name == "" || priceText == "" || description == "" || image.None? || image.value == "" {
        return Failure(BAD_REQUEST, "All fields are required");
      }
      if !PriceAccepted(price) {
        return Failure(BAD_REQUEST, PRICE_RANGE);
      }
      var p := Product(nextId, name, price.value, description, image.value, now, now);
      products := products + [p];
      nextId := nextId + 1;
      r := Success(CREATED, p);
    }

    /** `deleteProduct`. */
    method DeleteProduct(id: nat) returns (r: Reply<string>)
      modifies this
      ensures WithProductId(old(products), id).None? ==>
                r == Failure(NOT_FOUND, "Product not found") && products == old(products)
      ensures WithProductId(old(products), id).Some? ==>
                var i := WithProductId(old(products), id).value;
                r == Success(OK, "Product deleted successfully") &&
                products == old(products)[..i] + old(products)[i + 1..]
      ensures nextId == old(nextId)
    {
      var found := WithProductId(products, id);
      if found.None? {
        return Failure(NOT_FOUND, "Product not found");
      }
      var i := found.value;
      products := products[..i] + products[i + 1..];
      r := Success(OK, "Product deleted successfully");
    }

    /** `editProduct`: the image is not required, and it is replaced only
        when a new file is uploaded. */
    method EditProduct(id: nat, name: string, priceText: string, price: Option<real>,
                       description: string, image: Option<string>, now: int)
      returns (r: Reply<Product>)
      modifies this
      ensures nextId == old(nextId)
      ensures name == "" || priceText == "" || description == "" ==>
                r == Failure(BAD_REQUEST, "All fields are required") && products == old(products)
      ensures name != "" && priceText != "" && description != "" && !PriceAccepted(price) ==>
                r == Failure(BAD_REQUEST, PRICE_RANGE) && products == old(products)
      ensures name != "" && priceText != "" && description != "" && PriceAccepted(price) ==>
                match WithProductId(old(products), id)
                case None => r == Failure(NOT_FOUND, "Product not found") && products == old(products)
                case Some(i) =>
                  var q := old(products)[i];
                  var p := q.(name := name, price := price.value, description := description,
                              image := if image.Some? && image.value != "" then image.value else q.image,
                              updatedAt := now);
                  r == Success(OK, p) && products == old(products)[i := p]
      ensures r.Success? && (image.None? || image.value == "") ==>
                exists i :: 0 <= i < |old(products)| && old(products)[i].id == id &&
                            r.value.image == old(products)[i].image
    {
      if name == "" || priceText == "" || description == "" {
        return Failure(BAD_REQUEST, "All fields are required");
      }
      if !PriceAccepted(price) {
        return Failure(BAD_REQUEST, PRICE_RANGE);
      }
      var found := WithProductId(products, id);
      if found.None? {
        return Failure(NOT_FOUND, "Product not found");
      }
      var i := found.value;
      var p := products[i].(name := name, price := price.value, description := description);
      if image.Some? && image.value != "" {
        p := p.(image := image.value);
      }
      p := p.(updatedAt := now);
      products := products[i := p];
      r := Success(OK, p);
    }

    /** `getAllProducts`: every product, newest first. */
    function GetAllProducts(): (r: seq<Product>)
      reads this
      ensures multiset(r) == multiset(products)
      ensures NewestFirstBy(r, ProductCreatedAt)
    {
      NewestFirst(products, ProductCreatedAt)
    }
  }

  // ---------------------------------------------------------------------
  // Dashboard statistics

  /** The status of every order, in store order. */
  function Statuses(orders: seq<Order>): (r: seq<OrderStatus>)
    ensures |r| == |orders| && forall k :: 0 <= k < |orders| ==> r[k] == orders[k].orderStatus
  {
    seq(|orders|, k requires 0 <= k < |orders| => orders[k].orderStatus)
  }

  /** Orders with the given status (`countDocuments({ orderStatus })`):
      the number of times `s` occurs among the orders' statuses. */
  function CountStatus(orders: seq<Order>, s: OrderStatus): (n: nat)
    ensures n <= |orders|
    ensures n == multiset(Statuses(orders))[s]
  {
    if orders == [] then 0
    else
      var init := orders[..|orders| - 1];
      assert Statuses(orders) == Statuses(init) + [orders[|orders| - 1].orderStatus];
      CountStatus(init, s) + (if orders[|orders| - 1].orderStatus == s then 1 else 0)
  }

  /** The enum is closed, so the three status counts add up to the total. */
  lemma {:induction false} StatusCountsCoverAll(orders: seq<Order>)
    ensures CountStatus(orders, Pending) + CountStatus(orders, Shipped) + CountStatus(orders, Canceled) == |orders|
  {
    if orders != [] {
      StatusCountsCoverAll(orders[..|orders| - 1]);
    }
  }

  /** `$sum` of `totalPrice` over the given orders. */
  function Revenue(orders: seq<Order>): int
  {
    if orders == [] then 0 else Revenue(orders[..|orders| - 1]) + orders[|orders| - 1].totalPrice
  }

  const DAY_MS: int := 86400000
  const WINDOW_DAYS: int := 30

  /** The UTC day `$dateToString` with `%Y-%m-%d` names, as a day number. */
  function Day(t: int): int { t / DAY_MS }

  /** The `$match` of the revenue-over-time pipeline. */
  predicate InRevenueWindow(o: Order, since: int)
  {
    o.createdAt >= since && o.orderStatus != Canceled
  }

  /** Revenue per day of the orders in the window, grouped by day. */
  function RevenueByDay(orders: seq<Order>, since: int): map<int, int>
  {
    if orders == [] then map[]
    else
      var m := RevenueByDay(orders[..|orders| - 1], since);
      var o := orders[|orders| - 1];
      if !InRevenueWindow(o, since) then m
      else m[Day(o.createdAt) := (if Day(o.createdAt) in m then m[Day(o.createdAt)] else 0) + o.totalPrice]
  }

  /** Reference definition: the revenue of the orders counted on day `d`. */
  function DayRevenue(orders: seq<Order>, since: int, d: int): int
  {
    if orders == [] then 0
    else
      var o := orders[|orders| - 1];
      DayRevenue(orders[..|orders| - 1], since, d) +
        (if InRevenueWindow(o, since) && Day(o.createdAt) == d then o.totalPrice else 0)
  }

  /** Some order in the window falls on day `d`. */
  predicate HasDay(orders: seq<Order>, since: int, d: int)
  {
    exists i :: 0 <= i < |orders| && InRevenueWindow(orders[i], since) && Day(orders[i].createdAt) == d
  }

  /** Each day listed carries exactly the revenue of its orders, and the
      days listed are exactly those with an order in the window. */
  lemma {:induction false} RevenueByDayIsDayRevenue(orders: seq<Order>, since: int, d: int)
    ensures d in RevenueByDay(orders, since) <==> HasDay(orders, since, d)
    ensures d in RevenueByDay(orders, since) ==> RevenueByDay(orders, since)[d] == DayRevenue(orders, since, d)
    ensures d !in RevenueByDay(orders, since) ==> DayRevenue(orders, since, d) == 0
  {
    if orders != [] {
      var init := orders[..|orders| - 1];
      RevenueByDayIsDayRevenue(init, since, d);
      assert forall i :: 0 <= i < |init| ==> init[i] == orders[i];
      if HasDay(init, since, d) {
        var i :| 0 <= i < |init| && InRevenueWindow(init[i], since) && Day(init[i].createdAt) == d;
        assert orders[i] == init[i];
      }
      if HasDay(orders, since, d) && !HasDay(init, since, d) {
        var i :| 0 <= i < |orders| && InRevenueWindow(orders[i], since) && Day(orders[i].createdAt) == d;
        assert i == |orders| - 1;
      }
    }
  }

  /** The product names of the cart lines of non-canceled orders, one per line (`$unwind`). */
  function CartLines(orders: seq<Order>): seq<string>
  {
    if orders == [] then []
    else
      var o := orders[|orders| - 1];
      CartLines(orders[..|orders| - 1]) + (if o.orderStatus != Canceled then LineNames(o.cart) else [])
  }

  function LineNames(cart: seq<CartItem>): (r: seq<string>)
    ensures |r| == |cart| && forall k :: 0 <= k < |cart| ==> r[k] == cart[k].name
  {
    seq(|cart|, k requires 0 <= k < |cart| => cart[k].name)
  }

  /** `$group` by name with `orderCount: { $sum: 1 }`. */
  function CountByName(names: seq<string>): map<string, nat>
  {
    if names == [] then map[]
    else
      var m := CountByName(names[..|names| - 1]);
      var n := names[|names| - 1];
      m[n := (if n in m then m[n] else 0) + 1]
  }

  /** Reference definition: how many lines carry `name`. */
  function Occurrences(names: seq<string>, name: string): nat
  {
    multiset(names)[name]
  }

  /** Each name maps to the number of cart lines carrying it, and exactly
      the names that occur are listed. */
  lemma {:induction false} CountByNameIsOccurrences(names: seq<string>, name: string)
    ensures name in CountByName(names) <==> name in names
    ensures name in CountByName(names) ==> CountByName(names)[name] == Occurrences(names, name)
  {
    if names != [] {
      var init := names[..|names| - 1];
      CountByNameIsOccurrences(init, name);
      assert names == init + [names[|names| - 1]];
    }
  }

  /** `RevenueByDayIsDayRevenue` for every day at once. */
  lemma RevenueSeriesMeaning(orders: seq<Order>, since: int)
    ensures forall d :: d in RevenueByDay(orders, since) <==> HasDay(orders, since, d)
    ensures forall d :: d in RevenueByDay(orders, since) ==>
              RevenueByDay(orders, since)[d] == DayRevenue(orders, since, d)
  {
    forall d
      ensures d in RevenueByDay(orders, since) <==> HasDay(orders, since, d)
      ensures d in RevenueByDay(orders, since) ==> RevenueByDay(orders, since)[d] == DayRevenue(orders, since, d)
    {
      RevenueByDayIsDayRevenue(orders, since, d);
    }
  }

  /** `CountByNameIsOccurrences` for every name at once. */
  lemma ProductCountsMeaning(names: seq<string>)
    ensures forall name :: name in CountByName(names) <==> name in names
    ensures forall name :: name in CountByName(names) ==> CountByName(names)[name] == Occurrences(names, name)
  {
    forall name
      ensures name in CountByName(names) <==> name in names
      ensures name in CountByName(names) ==> CountByName(names)[name] == Occurrences(names, name)
    {
      CountByNameIsOccurrences(names, name);
    }
  }

  datatype Stats = Stats(
    totalOrders: nat,
    pendingOrders: nat,
    shippedOrders: nat,
    canceledOrders: nat,
    totalProducts: nat,
    totalRevenue: int,
    revenueOverTime: map<int, int>,
    ordersPerProduct: map<string, nat>)

  /** `getAdminStats` over the orders and products at time `now`; the
      window starts thirty days of milliseconds before `now`.  The total
      revenue counts every order, canceled ones included. */
  function AdminStats(orders: seq<Order>, products: seq<Product>, now: int): (s: Stats)
    ensures s.totalOrders == |orders| && s.totalProducts == |products|
    ensures s.pendingOrders + s.shippedOrders + s.canceledOrders == s.totalOrders
    ensures orders == [] ==> s.totalRevenue == 0 && s.revenueOverTime == map[] && s.ordersPerProduct == map[]
    ensures && s.pendingOrders == multiset(Statuses(orders))[Pending]
            && s.shippedOrders == multiset(Statuses(orders))[Shipped]
            && s.canceledOrders == multiset(Statuses(orders))[Canceled]
    ensures s.totalRevenue == Revenue(orders)
    ensures var since := now - WINDOW_DAYS * DAY_MS;
            && (forall d :: d in s.revenueOverTime <==> HasDay(orders, since, d))
            && forall d :: d in s.revenueOverTime ==> s.revenueOverTime[d] == DayRevenue(orders, since, d)
    ensures && (forall name :: name in s.ordersPerProduct <==> name in CartLines(orders))
            && forall name :: name in s.ordersPerProduct ==>
                 s.ordersPerProduct[name] == Occurrences(CartLines(orders), name)
  {
    StatusCountsCoverAll(orders);
    var since := now - WINDOW_DAYS * DAY_MS;
    RevenueSeriesMeaning(orders, since);
    ProductCountsMeaning(CartLines(orders));
    Stats(|orders|, CountStatus(orders, Pending), CountStatus(orders, Shipped), CountStatus(orders, Canceled),
          |products|, Revenue(orders), RevenueByDay(orders, since), CountByName(CartLines(orders)))
  }

  /** A canceled order changes neither the revenue over time nor the
      per-product counts, though it is counted in the total revenue. */
  lemma CanceledOrderExcluded(orders: seq<Order>, c: Order, since: int)
    requires c.orderStatus == Canceled
    ensures RevenueByDay(orders + [c], since) == RevenueByDay(orders, since)
    ensures CartLines(orders + [c]) == CartLines(orders)
    ensures Revenue(orders + [c]) == Revenue(orders) + c.totalPrice
  {
    assert (orders + [c])[..|orders|] == orders;
  }
}
