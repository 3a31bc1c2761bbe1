/** Weapons, money and ammunition in Redis, when any command may be lost. */
module Economy {
  import opened Options

  // ------------------------------------------------------------------ the weapon table

  datatype WeaponInfo = WeaponInfo(price: int, magazineSize: int)

  function FindWeapon(weaponType: int): Option<WeaponInfo> {
    match weaponType
    case 4 => Some(WeaponInfo(500, 6))
    case 5 => Some(WeaponInfo(5000, 6))
    case 1 => Some(WeaponInfo(10000, 8))
    case 2 => Some(WeaponInfo(300, 2))
    case 3 => Some(WeaponInfo(3000, 2))
    case _ => None
  }

  // ------------------------------------------------------------------ the store

  /** The fields of a user's hash that the server writes. */
  datatype User = User(balance: Option<int>, weapon: Option<int>, ammoType: Option<int>, ammo: Option<int>)

  type Store = map<string, User>

  function UserOf(s: Store, id: string): User {
    if id in s then s[id] else User(None, None, None, None)
  }

  /** How a write ends: acknowledged; no reply although it was applied; no reply and not applied; or an
      error reply, which the client logs and then treats as success. */
  datatype Reply = Ok | SilentlyApplied | Lost | ErrorReply

  predicate Applies(r: Reply) {
    r.Ok? || r.SilentlyApplied?
  }

  predicate Null(r: Reply) {
    r.SilentlyApplied? || r.Lost?
  }

  function Default(f: Option<int>): int {
    if f.Some? then f.value else 0
  }

  // ------------------------------------------------------------------ one purchase, one shot

  datatype Purchase = Purchase(balance: int, weapon: int, ammo: int)

  /** The four replies of `PurchaseWeapon`; those after the first null reply are never asked for. */
  datatype Replies = Replies(balance: Reply, weapon: Reply, ammoType: Reply, ammo: Reply)

  function SetBalance(u: User, p: Purchase, r: Reply): User {
    if Applies(r) then u.(balance := Some(p.balance)) else u
  }

  function SetWeapon(u: User, p: Purchase, r: Reply): User {
    if Applies(r) then u.(weapon := Some(p.weapon)) else u
  }

  function SetAmmoType(u: User, r: Reply): User {
    if Applies(r) then u.(ammoType := Some(0)) else u
  }

  function SetAmmo(u: User, ammo: int, r: Reply): User {
    if Applies(r) then u.(ammo := Some(ammo)) else u
  }

  /** The four writes in order, up to and including the first that brings no reply. */
  function Write(u: User, p: Purchase, rs: Replies): User {
    var u1 := SetBalance(u, p, rs.balance);
    if Null(rs.balance) then u1
    else
      var u2 := SetWeapon(u1, p, rs.weapon);
      if Null(rs.weapon) then u2
      else
        var u3 := SetAmmoType(u2, rs.ammoType);
        if Null(rs.ammoType) then u3 else SetAmmo(u3, p.ammo, rs.ammo)
  }

  predicate Acknowledged(rs: Replies) {
    !Null(rs.balance) && !Null(rs.weapon) && !Null(rs.ammoType) && !Null(rs.ammo)
  }

  /** What the handler of a purchase decides before it writes. */
  function Offer(u: User, weaponType: int, readOk: bool): Option<Purchase> {
    var w := FindWeapon(weaponType);
    if w.None? || !readOk || u.balance.None? || u.balance.value < w.value.price then None
    else Some(Purchase(u.balance.value - w.value.price, weaponType, w.value.magazineSize * 5))
  }

  function Buy(u: User, weaponType: int, readOk: bool, rs: Replies): User {
    var p := Offer(u, weaponType, readOk);
    if p.None? then u else Write(u, p.value, rs)
  }

  /** A shot is possible with a weapon and ammunition. */
  predicate CanShoot(u: User, readOk: bool) {
    readOk && Default(u.weapon) != 0 && Default(u.ammo) > 0
  }

  function Shoot(u: User, readOk: bool, r: Reply): User {
    if CanShoot(u, readOk) then SetAmmo(u, Default(u.ammo) - 1, r) else u
  }

  /** The client is told that the shot counted. */
  predicate ShotReported(u: User, readOk: bool, r: Reply) {
    CanShoot(u, readOk) && !Null(r)
  }

  // ------------------------------------------------------------------ field by field

  /** A purchase goes through to its writes: a known weapon, a balance that was read and covers the price. */
  predicate Sells(u: User, weaponType: int, readOk: bool) {
    && FindWeapon(weaponType).Some? && readOk
    && u.balance.Some? && FindWeapon(weaponType).value.price <= u.balance.value
  }

  /** Each field of the hash after a purchase: the balance less the price, the weapon asked for, ammunition
      type zero, five of its magazines; each if its write took effect and no earlier reply was missing. */
  lemma BuyStores(u: User, weaponType: int, readOk: bool, rs: Replies)
    ensures var u' := Buy(u, weaponType, readOk, rs);
            var b := Sells(u, weaponType, readOk);
            var w := b && (rs.balance.Ok? || rs.balance.ErrorReply?);
            var t := w && (rs.weapon.Ok? || rs.weapon.ErrorReply?);
            var a := t && (rs.ammoType.Ok? || rs.ammoType.ErrorReply?);
            && (if b && (rs.balance.Ok? || rs.balance.SilentlyApplied?)
                then u'.balance == Some(u.balance.value - FindWeapon(weaponType).value.price)
                else u'.balance == u.balance)
            && (if w && (rs.weapon.Ok? || rs.weapon.SilentlyApplied?)
                then u'.weapon == Some(weaponType) else u'.weapon == u.weapon)
            && (if t && (rs.ammoType.Ok? || rs.ammoType.SilentlyApplied?)
                then u'.ammoType == Some(0) else u'.ammoType == u.ammoType)
            && (if a && (rs.ammo.Ok? || rs.ammo.SilentlyApplied?)
                then u'.ammo == Some(FindWeapon(weaponType).value.magazineSize * 5) else u'.ammo == u.ammo)
  {
  }

  /** The five weapons, each bought with 10000 and every write acknowledged; no other type is sold. */
  lemma FullPurchases(weaponType: int)
    ensures var u, rs := User(Some(10_000), None, None, None), Replies(Ok, Ok, Ok, Ok);
            Buy(u, weaponType, true, rs) ==
            match weaponType
            case 1 => User(Some(0), Some(1), Some(0), Some(40))
            case 2 => User(Some(9_700), Some(2), Some(0), Some(10))
            case 3 => User(Some(7_000), Some(3), Some(0), Some(10))
            case 4 => User(Some(9_500), Some(4), Some(0), Some(30))
            case 5 => User(Some(5_000), Some(5), Some(0), Some(30))
            case _ => u
  {
  }

  /** A round is taken exactly from a hash that was read, with a weapon other than zero and positive
      ammunition, if the write took effect; nothing else changes. The shot is reported in the same case if
      the write was answered. */
  lemma ShootTakes(u: User, readOk: bool, r: Reply)
    ensures var armed := readOk && u.weapon.Some? && u.weapon.value != 0 && u.ammo.Some? && u.ammo.value > 0;
            && Shoot(u, readOk, r) ==
               (if armed && (r.Ok? || r.SilentlyApplied?) then u.(ammo := Some(u.ammo.value - 1)) else u)
            && (ShotReported(u, readOk, r) <==> armed && (r.Ok? || r.ErrorReply?))
  {
  }

  // ------------------------------------------------------------------ paid before granted

  /** The money of the purchase is gone. */
  predicate Charged(u: User, weaponType: int, readOk: bool, rs: Replies) {
    Offer(u, weaponType, readOk).Some? && Applies(rs.balance)
  }

  /** A write of the goods took effect. */
  predicate Granted(u: User, weaponType: int, readOk: bool, rs: Replies) {
    && Offer(u, weaponType, readOk).Some? && !Null(rs.balance)
    && (|| Applies(rs.weapon)
        || (!Null(rs.weapon) && Applies(rs.ammoType))
        || (!Null(rs.weapon) && !Null(rs.ammoType) && Applies(rs.ammo)))
  }

  /** Goods without a charge: exactly when the charge drew an error reply and a later write, not cut off
      by a missing reply, took effect. */
  lemma GrantedUnpaidIff(u: User, weaponType: int, readOk: bool, rs: Replies)
    ensures Granted(u, weaponType, readOk, rs) && !Charged(u, weaponType, readOk, rs) <==>
              && Offer(u, weaponType, readOk).Some? && rs.balance.ErrorReply?
              && (|| Applies(rs.weapon)
                  || (rs.weapon.ErrorReply? && Applies(rs.ammoType))
                  || (rs.weapon.ErrorReply? && rs.ammoType.ErrorReply? && Applies(rs.ammo)))
  {
  }

  /** It can happen: the balance write is refused, the others are applied. */
  lemma GrantedUnpaidExample()
    ensures var u, rs := User(Some(500), None, None, None), Replies(ErrorReply, Ok, Ok, Ok);
            Buy(u, 4, true, rs) == User(Some(500), Some(4), Some(0), Some(30))
  {
  }

  /** In terms of the hash: the balance drops by the price exactly when charged, and nothing else of the
      hash changes unless granted. */
  lemma BuyChanges(u: User, weaponType: int, readOk: bool, rs: Replies)
    ensures var u' := Buy(u, weaponType, readOk, rs);
            && (Charged(u, weaponType, readOk, rs) ==>
                  FindWeapon(weaponType).Some? && u.balance.Some? &&
                  u'.balance == Some(u.balance.value - FindWeapon(weaponType).value.price))
            && (!Charged(u, weaponType, readOk, rs) ==> u'.balance == u.balance)
            && (!Granted(u, weaponType, readOk, rs) ==> u'.(balance := u.balance) == u)
  {
  }

  /** The client is told of success exactly when every write was answered; then, without error replies,
      the hash holds the whole purchase. A failure is reported although the money is gone exactly when
      the charge took effect and some write was not answered. */
  lemma SuccessMeansComplete(u: User, weaponType: int, readOk: bool, rs: Replies)
    requires Offer(u, weaponType, readOk).Some?
    ensures var p := Offer(u, weaponType, readOk).value;
            && (Acknowledged(rs) && !rs.balance.ErrorReply? && !rs.weapon.ErrorReply? && !rs.ammoType.ErrorReply?
                && !rs.ammo.ErrorReply? ==>
                  Buy(u, weaponType, readOk, rs) == User(Some(p.balance), Some(p.weapon), Some(0), Some(p.ammo)))
            && (!Acknowledged(rs) && Charged(u, weaponType, readOk, rs) <==>
                  rs.balance.SilentlyApplied?
                  || (rs.balance.Ok? && (Null(rs.weapon) || Null(rs.ammoType) || Null(rs.ammo))))
  {
  }

  /** The arithmetic of an offer stays within the 64-bit and 32-bit ranges. */
  lemma OfferInRange(u: User, weaponType: int, readOk: bool)
    requires Offer(u, weaponType, readOk).Some?
    ensures 0 <= Offer(u, weaponType, readOk).value.balance < u.balance.value
    ensures 10 <= Offer(u, weaponType, readOk).value.ammo <= 40
  {
  }

  // ------------------------------------------------------------------ whole runs

  /** The packets that touch the economy, with what Redis will answer. */
  datatype Event =
    | BuyEvent(user: string, weaponType: int, readOk: bool, rs: Replies)
    | ShotEvent(user: string, readOk: bool, r: Reply)

  function Apply(s: Store, e: Event): Store {
    match e
    case BuyEvent(id, w, ok, rs) => s[id := Buy(UserOf(s, id), w, ok, rs)]
    case ShotEvent(id, ok, r) => s[id := Shoot(UserOf(s, id), ok, r)]
  }

  function Run(s: Store, es: seq<Event>): Store {
    if es == [] then s else Apply(Run(s, es[..|es|-1]), es[|es|-1])
  }

  /** The price an event took from a user. */
  function Charge(s: Store, e: Event, id: string): int {
    if e.BuyEvent? && e.user == id && Charged(UserOf(s, id), e.weaponType, e.readOk, e.rs)
       && FindWeapon(e.weaponType).Some?
    then FindWeapon(e.weaponType).value.price
    else 0
  }

  function Spent(s: Store, es: seq<Event>, id: string): int {
    if es == [] then 0
    else Spent(s, es[..|es|-1], id) + Charge(Run(s, es[..|es|-1]), es[|es|-1], id)
  }

  /** A user's events alone decide that user's hash. */
  lemma OthersUntouched(s: Store, e: Event, id: string)
    requires e.user != id
    ensures UserOf(Apply(s, e), id) == UserOf(s, id)
  {
  }

  lemma ChargeStep(s: Store, e: Event, id: string)
    ensures UserOf(s, id).balance.None? ==> UserOf(Apply(s, e), id).balance.None? && Charge(s, e, id) == 0
    ensures UserOf(s, id).balance.Some? ==>
              && UserOf(Apply(s, e), id).balance == Some(UserOf(s, id).balance.value - Charge(s, e, id))
              && 0 <= Charge(s, e, id)
              && (Charge(s, e, id) > 0 ==> Charge(s, e, id) <= UserOf(s, id).balance.value)
  {
    if e.user == id && e.BuyEvent? { BuyChanges(UserOf(s, id), e.weaponType, e.readOk, e.rs); }
  }

  /** Over any run, whatever Redis loses, refuses or applies silently, a user's balance falls by exactly
      the prices charged; it never rises, and never falls below zero from above. */
  lemma {:induction false} MoneyConserved(s: Store, es: seq<Event>, id: string)
    ensures UserOf(s, id).balance.None? ==> UserOf(Run(s, es), id).balance.None? && Spent(s, es, id) == 0
    ensures UserOf(s, id).balance.Some? ==>
              && UserOf(Run(s, es), id).balance == Some(UserOf(s, id).balance.value - Spent(s, es, id))
              && 0 <= Spent(s, es, id)
              && (UserOf(s, id).balance.value >= 0 ==> Spent(s, es, id) <= UserOf(s, id).balance.value)
    decreases |es|
  {
    if es != [] {
      MoneyConserved(s, es[..|es|-1], id);
      ChargeStep(Run(s, es[..|es|-1]), es[|es|-1], id);
    }
  }

  predicate NoRefusedCharges(es: seq<Event>) {
    forall i :: 0 <= i < |es| && es[i].BuyEvent? ==> !es[i].rs.balance.ErrorReply?
  }

  /** Nothing is free: over a run in which Redis answers no charge with an error, a user who spent
      nothing has the weapon and ammunition type of before, and no more rounds. */
  lemma {:induction false} NothingFree(s: Store, es: seq<Event>, id: string)
    requires NoRefusedCharges(es) && Spent(s, es, id) == 0
    ensures var u, u' := UserOf(s, id), UserOf(Run(s, es), id);
            u'.weapon == u.weapon && u'.ammoType == u.ammoType && Default(u'.ammo) <= Default(u.ammo)
    decreases |es|
  {
    if es != [] {
      var front, e := es[..|es|-1], es[|es|-1];
      MoneyConserved(s, front, id);
      ChargeStep(Run(s, front), e, id);
      SpentNotNegative(s, front, id);
      NothingFree(s, front, id);
      var u := UserOf(Run(s, front), id);
      if e.user == id && e.BuyEvent? {
        assert es[|es|-1].BuyEvent?;
        BuyChanges(u, e.weaponType, e.readOk, e.rs);
        GrantedUnpaidIff(u, e.weaponType, e.readOk, e.rs);
        if Offer(u, e.weaponType, e.readOk).Some? { OfferHasPrice(u, e.weaponType, e.readOk); }
      }
    }
  }

  /** The user's hash has another weapon or ammunition type, or more rounds. */
  predicate Gained(u: User, u': User) {
    u'.weapon != u.weapon || u'.ammoType != u.ammoType || Default(u'.ammo) > Default(u.ammo)
  }

  /** Every gain is a purchase, and is paid for with the price of its weapon unless the charge drew an
      error reply. */
  lemma GainsArePaid(s: Store, e: Event, id: string)
    requires Gained(UserOf(s, id), UserOf(Apply(s, e), id))
    ensures e.BuyEvent? && e.user == id && FindWeapon(e.weaponType).Some?
    ensures !e.rs.balance.ErrorReply? ==>
              Charge(s, e, id) == FindWeapon(e.weaponType).value.price && Charge(s, e, id) > 0
  {
    var u := UserOf(s, id);
    if e.user == id && e.BuyEvent? {
      BuyChanges(u, e.weaponType, e.readOk, e.rs);
      GrantedUnpaidIff(u, e.weaponType, e.readOk, e.rs);
    }
  }

  /** The prices of the weapons whose purchase changed the user's belongings. */
  function Bought(s: Store, es: seq<Event>, id: string): int {
    if es == [] then 0
    else
      var front, e := Run(s, es[..|es|-1]), es[|es|-1];
      Bought(s, es[..|es|-1], id) +
      (if e.BuyEvent? && FindWeapon(e.weaponType).Some? && Gained(UserOf(front, id), UserOf(Apply(front, e), id))
       then FindWeapon(e.weaponType).value.price else 0)
  }

  /** So over any run in which Redis answers no charge with an error, all that was gained was paid: the
      prices of the gains are part of what left the balance. */
  lemma {:induction false} BoughtIsSpent(s: Store, es: seq<Event>, id: string)
    requires NoRefusedCharges(es)
    ensures Bought(s, es, id) <= Spent(s, es, id)
    ensures UserOf(s, id).balance.Some? ==>
              UserOf(Run(s, es), id).balance.Some? &&
              Bought(s, es, id) <= UserOf(s, id).balance.value - UserOf(Run(s, es), id).balance.value
    decreases |es|
  {
    MoneyConserved(s, es, id);
    if es != [] {
      var front, e := es[..|es|-1], es[|es|-1];
      BoughtIsSpent(s, front, id);
      ChargeStep(Run(s, front), e, id);
      var u, u' := UserOf(Run(s, front), id), UserOf(Apply(Run(s, front), e), id);
      if Gained(u, u') {
        GainsArePaid(Run(s, front), e, id);
        assert es[|es|-1].BuyEvent? && !e.rs.balance.ErrorReply?;
      }
    }
  }

  lemma {:induction false} SpentNotNegative(s: Store, es: seq<Event>, id: string)
    ensures Spent(s, es, id) >= 0
  {
    MoneyConserved(s, es, id);
  }

  lemma OfferHasPrice(u: User, weaponType: int, readOk: bool)
    requires Offer(u, weaponType, readOk).Some?
    ensures FindWeapon(weaponType).Some? && FindWeapon(weaponType).value.price > 0
  {
  }

  /** The write of the weapon of this purchase takes effect. */
  predicate Arms(u: User, e: Event) {
    && e.BuyEvent? && Sells(u, e.weaponType, e.readOk)
    && (e.rs.balance.Ok? || e.rs.balance.ErrorReply?) && (e.rs.weapon.Ok? || e.rs.weapon.SilentlyApplied?)
  }

  /** Over any run the weapon is that of the last purchase whose weapon write took effect, or the first
      one; and the ammunition type is zero or the first one. */
  lemma {:induction false} WeaponIsLastBought(s: Store, es: seq<Event>, id: string)
    ensures || (UserOf(Run(s, es), id).weapon == UserOf(s, id).weapon
                && forall i :: 0 <= i < |es| && es[i].user == id ==> !Arms(UserOf(Run(s, es[..i]), id), es[i]))
            || exists i :: ArmedAt(s, es, id, i)
    ensures UserOf(Run(s, es), id).ammoType in {UserOf(s, id).ammoType, Some(0)}
    decreases |es|
  {
    if es != [] {
      var n := |es| - 1;
      var front, e := es[..n], es[n];
      WeaponIsLastBought(s, front, id);
      WeaponStep(Run(s, front), e, id);
      if e.user == id && Arms(UserOf(Run(s, front), id), e) {
        assert ArmedAt(s, es, id, n);
      } else if i :| ArmedAt(s, front, id, i) {
        ArmedOn(s, es, id, i);
      } else {
        forall i | 0 <= i < |es| && es[i].user == id
          ensures !Arms(UserOf(Run(s, es[..i]), id), es[i])
        {
          if i < n { assert front[..i] == es[..i] && front[i] == es[i]; }
        }
      }
    }
  }

  /** Event `i` arms the user with the weapon held at the end, and no later one arms. */
  predicate ArmedAt(s: Store, es: seq<Event>, id: string, i: int) {
    && 0 <= i < |es| && es[i].user == id && Arms(UserOf(Run(s, es[..i]), id), es[i])
    && UserOf(Run(s, es), id).weapon == Some(es[i].weaponType)
    && forall j :: i < j < |es| && es[j].user == id ==> !Arms(UserOf(Run(s, es[..j]), id), es[j])
  }

  lemma WeaponStep(s: Store, e: Event, id: string)
    ensures var u, u' := UserOf(s, id), UserOf(Apply(s, e), id);
            && u'.weapon == (if e.user == id && Arms(u, e) then Some(e.weaponType) else u.weapon)
            && u'.ammoType in {u.ammoType, Some(0)}
  {
    if e.user == id {
      if e.BuyEvent? { BuyStores(UserOf(s, id), e.weaponType, e.readOk, e.rs); }
      else { ShootTakes(UserOf(s, id), e.readOk, e.r); }
    }
  }

  lemma ArmedOn(s: Store, es: seq<Event>, id: string, i: int)
    requires es != [] && ArmedAt(s, es[..|es|-1], id, i)
    requires es[|es|-1].user == id ==> !Arms(UserOf(Run(s, es[..|es|-1]), id), es[|es|-1])
    ensures ArmedAt(s, es, id, i)
  {
    var n := |es| - 1;
    WeaponStep(Run(s, es[..n]), es[n], id);
    assert es[..n][..i] == es[..i];
    forall j | i < j < |es| && es[j].user == id
      ensures !Arms(UserOf(Run(s, es[..j]), id), es[j])
    {
      if j < n { assert es[..n][..j] == es[..j] && es[..n][j] == es[j]; }
    }
  }

  // ------------------------------------------------------------------ ammunition

  /** The account of a user's ammunition since the last ammo write of a purchase took effect: how much
      there was, the shots reported, the shots taken without a report, and those reported without being
      taken. */
  datatype AmmoBook = AmmoBook(top: int, shots: nat, unreported: nat, phantom: nat)

  predicate TopsUp(u: User, e: Event) {
    && e.BuyEvent? && Offer(u, e.weaponType, e.readOk).Some?
    && !Null(e.rs.balance) && !Null(e.rs.weapon) && !Null(e.rs.ammoType) && Applies(e.rs.ammo)
  }

  function BookStep(b: AmmoBook, s: Store, e: Event, id: string): AmmoBook {
    var u := UserOf(s, id);
    if e.user != id then b
    else if TopsUp(u, e) then AmmoBook(Offer(u, e.weaponType, e.readOk).value.ammo, 0, 0, 0)
    else if e.ShotEvent? && CanShoot(u, e.readOk) then
      match e.r
      case Ok => b.(shots := b.shots + 1)
      case SilentlyApplied => b.(unreported := b.unreported + 1)
      case ErrorReply => b.(shots := b.shots + 1, phantom := b.phantom + 1)
      case Lost => b
    else b
  }

  function Book(s: Store, es: seq<Event>, id: string): AmmoBook {
    if es == [] then AmmoBook(Default(UserOf(s, id).ammo), 0, 0, 0)
    else BookStep(Book(s, es[..|es|-1], id), Run(s, es[..|es|-1]), es[|es|-1], id)
  }

  lemma BookStepBalances(b: AmmoBook, s: Store, e: Event, id: string)
    requires Default(UserOf(s, id).ammo) + b.shots + b.unreported - b.phantom == b.top
    ensures var b' := BookStep(b, s, e, id);
            Default(UserOf(Apply(s, e), id).ammo) + b'.shots + b'.unreported - b'.phantom == b'.top
    ensures Default(UserOf(s, id).ammo) >= 0 ==> Default(UserOf(Apply(s, e), id).ammo) >= 0
    ensures e.ShotEvent? && e.user == id ==>
              BookStep(b, s, e, id).shots == b.shots + (if ShotReported(UserOf(s, id), e.readOk, e.r) then 1 else 0)
  {
  }

  /** Over any run every round is accounted for, and ammunition does not go negative. */
  lemma {:induction false} AmmoConserved(s: Store, es: seq<Event>, id: string)
    ensures var b := Book(s, es, id);
            Default(UserOf(Run(s, es), id).ammo) + b.shots + b.unreported - b.phantom == b.top
    ensures Default(UserOf(s, id).ammo) >= 0 ==> Default(UserOf(Run(s, es), id).ammo) >= 0
    ensures match LastTopUp(s, es, id)
            case None => Book(s, es, id).top == Default(UserOf(s, id).ammo)
            case Some(k) => k < |es| && es[k].BuyEvent? && FromMagazine(Book(s, es, id).top, es[k].weaponType)
    decreases |es|
  {
    if es != [] {
      var s', e := Run(s, es[..|es|-1]), es[|es|-1];
      AmmoConserved(s, es[..|es|-1], id);
      BookStepBalances(Book(s, es[..|es|-1], id), s', e, id);
    }
  }

  /** Five magazines of a weapon. */
  predicate FromMagazine(ammo: int, w: int) {
    FindWeapon(w).Some? && ammo == 5 * FindWeapon(w).value.magazineSize
  }

  /** Where the last purchase stands whose ammunition took effect. */
  function LastTopUp(s: Store, es: seq<Event>, id: string): Option<nat> {
    if es == [] then None
    else
      var front, e := es[..|es|-1], es[|es|-1];
      if e.user == id && TopsUp(UserOf(Run(s, front), id), e) then Some(|es| - 1) else LastTopUp(s, front, id)
  }

  /** The purchase found sets the ammunition, and no later event does so. */
  lemma {:induction false} LastTopUpIsLast(s: Store, es: seq<Event>, id: string, k: nat)
    requires LastTopUp(s, es, id) == Some(k)
    ensures k < |es| && es[k].BuyEvent? && es[k].user == id
    ensures FindWeapon(es[k].weaponType).Some?
    ensures UserOf(Run(s, es[..k + 1]), id).ammo == Some(5 * FindWeapon(es[k].weaponType).value.magazineSize)
    ensures forall j :: k < j < |es| && es[j].user == id ==> !TopsUp(UserOf(Run(s, es[..j]), id), es[j])
    decreases |es|
  {
    var front, e := es[..|es|-1], es[|es|-1];
    if e.user == id && TopsUp(UserOf(Run(s, front), id), e) {
      assert es[..k + 1] == es;
      TopUpSets(Run(s, front), e, id);
    } else {
      LastTopUpIsLast(s, front, id, k);
      assert front[..k + 1] == es[..k + 1];
      forall j | k < j < |es| && es[j].user == id
        ensures !TopsUp(UserOf(Run(s, es[..j]), id), es[j])
      {
        if j < |front| { assert front[..j] == es[..j] && front[j] == es[j]; } else { assert es[..j] == front; }
      }
    }
  }

  lemma TopUpSets(s: Store, e: Event, id: string)
    requires e.user == id && TopsUp(UserOf(s, id), e)
    ensures FindWeapon(e.weaponType).Some?
    ensures UserOf(Apply(s, e), id).ammo == Some(5 * FindWeapon(e.weaponType).value.magazineSize)
  {
  }

  predicate NoErrorReplies(es: seq<Event>) {
    forall i :: 0 <= i < |es| && es[i].ShotEvent? ==> !es[i].r.ErrorReply?
  }

  lemma {:induction false} NoPhantoms(s: Store, es: seq<Event>, id: string)
    requires NoErrorReplies(es)
    ensures Book(s, es, id).phantom == 0
    decreases |es|
  {
    if es != [] { NoPhantoms(s, es[..|es|-1], id); }
  }

  predicate NoSilentShots(es: seq<Event>) {
    forall i :: 0 <= i < |es| && es[i].ShotEvent? ==> !es[i].r.SilentlyApplied?
  }

  lemma {:induction false} NoneUnreported(s: Store, es: seq<Event>, id: string)
    requires NoSilentShots(es)
    ensures Book(s, es, id).unreported == 0
    decreases |es|
  {
    if es != [] { NoneUnreported(s, es[..|es|-1], id); }
  }

  /** So, as long as Redis answers no shot with an error, the shots reported and the rounds left never
      exceed what was last bought; and they are equal when also no reply to an applied shot is lost. */
  lemma {:induction false} ShotsWithinPurchase(s: Store, es: seq<Event>, id: string)
    requires NoErrorReplies(es)
    ensures Book(s, es, id).shots + Default(UserOf(Run(s, es), id).ammo) <= Book(s, es, id).top
    ensures NoSilentShots(es) ==> Book(s, es, id).shots + Default(UserOf(Run(s, es), id).ammo) == Book(s, es, id).top
  {
    AmmoConserved(s, es, id);
    NoPhantoms(s, es, id);
    if NoSilentShots(es) { NoneUnreported(s, es, id); }
  }
}
