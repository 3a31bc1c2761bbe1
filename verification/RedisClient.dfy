/** `RedisClient` and the packet handlers that use it, as methods on the store, proved against
    `Economy`. What Redis will answer is passed in. */
module RedisClient {
  import opened Economy
  import opened Options

  // ------------------------------------------------------------------ the reply to HGETALL

  datatype Field =
    | Nickname | Scene | Hp | Balance | CharType | PosX | PosY | PosZ | Rot | Weapon | AmmoType | Ammo | Unknown

  /** A field of a user's hash with its value: the text, and the number it reads as. */
  datatype Entry = Entry(field: Field, text: string, number: int)

  /** Coordinates are bit patterns. */
  datatype PlayerRedisInfo = PlayerRedisInfo(
    userId: string, nickname: string, scene: string, hp: int, balance: int, charType: int,
    posX: int, posY: int, posZ: int, rot: int, weapon: int, ammoType: int, ammo: int)

  const F32_ONE: int := 0x3F80_0000

  /** The last value of a field, or what it is without one. */
  function Number(es: seq<Entry>, f: Field, absent: int): int {
    if es == [] then absent
    else if es[|es|-1].field == f then es[|es|-1].number
    else Number(es[..|es|-1], f, absent)
  }

  function Words(es: seq<Entry>, f: Field): string {
    if es == [] then ""
    else if es[|es|-1].field == f then es[|es|-1].text
    else Words(es[..|es|-1], f)
  }

  /** That is: the value at the last place where the field stands. */
  lemma {:induction false} NumberIsLast(es: seq<Entry>, f: Field, absent: int)
    ensures || (Number(es, f, absent) == absent && forall e :: e in es ==> e.field != f)
            || exists i :: LastAt(es, f, i) && Number(es, f, absent) == es[i].number
    decreases |es|
  {
    if es != [] {
      var n := |es| - 1;
      if es[n].field == f {
        assert LastAt(es, f, n);
      } else {
        NumberIsLast(es[..n], f, absent);
        if i :| LastAt(es[..n], f, i) && Number(es[..n], f, absent) == es[..n][i].number {
          assert LastAt(es, f, i);
        } else {
          assert forall e :: e in es ==> e in es[..n] || e == es[n];
        }
      }
    }
  }

  predicate LastAt(es: seq<Entry>, f: Field, i: int) {
    0 <= i < |es| && es[i].field == f && forall j :: i < j < |es| ==> es[j].field != f
  }

  lemma {:induction false} WordsIsLast(es: seq<Entry>, f: Field)
    ensures || (Words(es, f) == "" && forall e :: e in es ==> e.field != f)
            || exists i :: LastAt(es, f, i) && Words(es, f) == es[i].text
    decreases |es|
  {
    if es != [] {
      var n := |es| - 1;
      if es[n].field == f {
        assert LastAt(es, f, n);
      } else {
        WordsIsLast(es[..n], f);
        if i :| LastAt(es[..n], f, i) && Words(es[..n], f) == es[..n][i].text {
          assert LastAt(es, f, i);
        } else {
          assert forall e :: e in es ==> e in es[..n] || e == es[n];
        }
      }
    }
  }

  /** Every field by its own name; the vertical position alone starts at one. */
  function InfoOf(id: string, es: seq<Entry>): PlayerRedisInfo {
    PlayerRedisInfo(
      id, Words(es, Nickname), Words(es, Scene), Number(es, Hp, 0), Number(es, Balance, 0), Number(es, CharType, 0),
      Number(es, PosX, 0), Number(es, PosY, F32_ONE), Number(es, PosZ, 0), Number(es, Rot, 0),
      Number(es, Weapon, 0), Number(es, AmmoType, 0), Number(es, Ammo, 0))
  }

  /** The reply tells what the hash holds. */
  predicate Lists(u: User, es: seq<Entry>) {
    && Number(es, Balance, 0) == Default(u.balance) && Number(es, Weapon, 0) == Default(u.weapon)
    && Number(es, AmmoType, 0) == Default(u.ammoType) && Number(es, Ammo, 0) == Default(u.ammo)
  }

  class RedisClient {
    var connected: bool
    var store: Store

    constructor ()
      ensures !connected && store == map[]
    {
      connected, store := false, map[];
    }

    /** `HGETALL` and the loop over its reply: each field goes to its own member, absent ones keep the
        defaults of `PlayerRedisInfo`, the last of several wins. */
    method GetPlayerInfo(id: string, readOk: bool, reply: seq<Entry>) returns (ok: bool, info: PlayerRedisInfo)
      requires readOk ==> Lists(UserOf(store, id), reply)
      ensures ok == (connected && readOk)
      ensures ok ==>
                && info.userId == id && info.nickname == Words(reply, Nickname) && info.scene == Words(reply, Scene)
                && info.hp == Number(reply, Hp, 0) && info.balance == Number(reply, Balance, 0)
                && info.charType == Number(reply, CharType, 0)
                && info.posX == Number(reply, PosX, 0) && info.posY == Number(reply, PosY, 0x3F80_0000)
                && info.posZ == Number(reply, PosZ, 0) && info.rot == Number(reply, Rot, 0)
                && info.weapon == Number(reply, Weapon, 0) && info.ammoType == Number(reply, AmmoType, 0)
                && info.ammo == Number(reply, Ammo, 0)
      ensures ok ==> info.weapon == Default(UserOf(store, id).weapon) && info.ammo == Default(UserOf(store, id).ammo)
    {
      info := InfoOf("", []);
      if !connected { return false, info; }
      if !readOk { return false, info; }
      info := info.(userId := id);
      for i := 0 to |reply|
        invariant info == InfoOf(id, reply[..i])
      {
        assert reply[..i + 1][..i] == reply[..i];
        match reply[i].field
        case Nickname => info := info.(nickname := reply[i].text);
        case Scene => info := info.(scene := reply[i].text);
        case Hp => info := info.(hp := reply[i].number);
        case Balance => info := info.(balance := reply[i].number);
        case CharType => info := info.(charType := reply[i].number);
        case PosX => info := info.(posX := reply[i].number);
        case PosY => info := info.(posY := reply[i].number);
        case PosZ => info := info.(posZ := reply[i].number);
        case Rot => info := info.(rot := reply[i].number);
        case Weapon => info := info.(weapon := reply[i].number);
        case AmmoType => info := info.(ammoType := reply[i].number);
        case Ammo => info := info.(ammo := reply[i].number);
        case Unknown =>
      }
      assert reply[..|reply|] == reply;
      return true, info;
    }

    method GetBalance(id: string, readOk: bool) returns (ok: bool, balance: int)
      ensures ok == (connected && readOk && UserOf(store, id).balance.Some?)
      ensures ok ==> balance == UserOf(store, id).balance.value
    {
      if !connected { return false, 0; }
      if !readOk || id !in store || store[id].balance.None? { return false, 0; }
      return true, store[id].balance.value;
    }

    /** One `HSET` on a user's hash. */
    method Hset(id: string, u: User, r: Reply)
      modifies this`store
      ensures store == if Applies(r) then old(store)[id := u] else old(store)
    {
      if Applies(r) { store := store[id := u]; }
    }

    method SetAmmo(id: string, ammo: int, r: Reply) returns (ok: bool)
      modifies this`store
      ensures ok == (connected && !Null(r))
      ensures store == if connected && Applies(r) then old(store)[id := UserOf(old(store), id).(ammo := Some(ammo))]
                       else old(store)
    {
      if !connected { return false; }
      Hset(id, UserOf(store, id).(ammo := Some(ammo)), r);
      return !Null(r);
    }

    method PurchaseWeapon(id: string, p: Purchase, rs: Replies) returns (ok: bool)
      modifies this`store
      ensures ok == (connected && Acknowledged(rs))
      ensures !connected ==> store == old(store)
      ensures connected ==> UserOf(store, id) == Write(UserOf(old(store), id), p, rs)
      ensures connected && rs == Replies(Ok, Ok, Ok, Ok) ==>
                UserOf(store, id) == User(Some(p.balance), Some(p.weapon), Some(0), Some(p.ammo))
      ensures connected && Null(rs.balance) ==>
                UserOf(store, id).(balance := UserOf(old(store), id).balance) == UserOf(old(store), id)
      ensures forall other :: other != id ==> UserOf(store, other) == UserOf(old(store), other)
    {
      if !connected { return false; }
      Hset(id, UserOf(store, id).(balance := Some(p.balance)), rs.balance);
      if Null(rs.balance) { return false; }
      Hset(id, UserOf(store, id).(weapon := Some(p.weapon)), rs.weapon);
      if Null(rs.weapon) { return false; }
      Hset(id, UserOf(store, id).(ammoType := Some(0)), rs.ammoType);
      if Null(rs.ammoType) { return false; }
      Hset(id, UserOf(store, id).(ammo := Some(p.ammo)), rs.ammo);
      if Null(rs.ammo) { return false; }
      return true;
    }

    method ConsumeLobbyAmmo(id: string, readOk: bool, reply: seq<Entry>, r: Reply)
      returns (ok: bool, remaining: int)
      requires readOk ==> Lists(UserOf(store, id), reply)
      modifies this`store
      ensures ok <==>
                && connected && readOk && Default(UserOf(old(store), id).weapon) != 0
                && Default(UserOf(old(store), id).ammo) > 0 && !Null(r)
      ensures UserOf(store, id) ==
              if connected && readOk && Default(UserOf(old(store), id).weapon) != 0
                 && Default(UserOf(old(store), id).ammo) > 0 && Applies(r)
              then UserOf(old(store), id).(ammo := Some(Default(UserOf(old(store), id).ammo) - 1))
              else UserOf(old(store), id)
      ensures ok == (connected && ShotReported(UserOf(old(store), id), readOk, r))
      ensures ok ==> remaining == Default(UserOf(old(store), id).ammo) - 1
      ensures ok && r.Ok? ==> remaining == Default(UserOf(store, id).ammo)
      ensures UserOf(store, id) ==
              if connected then Shoot(UserOf(old(store), id), readOk, r) else UserOf(old(store), id)
      ensures forall other :: other != id ==> UserOf(store, other) == UserOf(old(store), other)
    {
      hide InfoOf, Number, Words;
      remaining := 0;
      if !connected { return false, 0; }
      var found, info := GetPlayerInfo(id, readOk, reply);
      if !found { return false, 0; }
      if info.weapon == 0 { return false, 0; }
      var ammo := info.ammo;
      if ammo <= 0 { return false, 0; }
      ammo := ammo - 1;
      ok := SetAmmo(id, ammo, r);
      if !ok { return false, 0; }
      remaining := ammo;
    }
  }

  /** `S_PURCHASE_WEAPON_RESULT`. */
  datatype Result = Result(success: bool, weaponType: int, balance: int)

  class UdpServerPacketHandler {
    const redis: RedisClient

    constructor (r: RedisClient)
      ensures redis == r
    {
      redis := r;
    }

    /** `Handle_C_BUY_WEAPON` from the parsed request on. */
    method HandleBuyWeapon(id: string, weaponType: int, readOk: bool, rs: Replies) returns (res: Result)
      modifies redis`store
      ensures redis.connected ==> UserOf(redis.store, id) == Buy(UserOf(old(redis.store), id), weaponType, readOk, rs)
      ensures !redis.connected ==> redis.store == old(redis.store)
      ensures forall other :: other != id ==> UserOf(redis.store, other) == UserOf(old(redis.store), other)
      ensures res.weaponType == weaponType
      ensures res.success && rs == Replies(Ok, Ok, Ok, Ok) ==>
                && FindWeapon(weaponType).Some?
                && UserOf(redis.store, id) ==
                   User(Some(Default(UserOf(old(redis.store), id).balance) - FindWeapon(weaponType).value.price),
                        Some(weaponType), Some(0), Some(FindWeapon(weaponType).value.magazineSize * 5))
      ensures redis.connected && Sells(UserOf(old(redis.store), id), weaponType, readOk)
              && !Null(rs.balance) && Applies(rs.weapon) ==>
                UserOf(redis.store, id).weapon == Some(weaponType)
      ensures res.success <==>
                redis.connected && Sells(UserOf(old(redis.store), id), weaponType, readOk) && Acknowledged(rs)
      ensures res.success <==>
                redis.connected && Offer(UserOf(old(redis.store), id), weaponType, readOk).Some? && Acknowledged(rs)
      ensures !res.success ==>
                res.balance == if redis.connected && readOk && FindWeapon(weaponType).Some?
                               then Default(UserOf(old(redis.store), id).balance) else 0
      ensures res.success && FindWeapon(weaponType).Some? ==>
                res.balance == Default(UserOf(old(redis.store), id).balance) - FindWeapon(weaponType).value.price
      ensures res.success && rs.balance.Ok? ==> Some(res.balance) == UserOf(redis.store, id).balance
    {
      var weapon := FindWeapon(weaponType);
      if weapon.None? { return Result(false, weaponType, 0); }
      var ok, balance := redis.GetBalance(id, readOk);
      if !ok { return Result(false, weaponType, 0); }
      if balance < weapon.value.price { return Result(false, weaponType, balance); }
      var newBalance := balance - weapon.value.price;
      var ammoOnPurchase := weapon.value.magazineSize * 5;
      ok := redis.PurchaseWeapon(id, Purchase(newBalance, weaponType, ammoOnPurchase), rs);
      if !ok { return Result(false, weaponType, balance); }
      return Result(true, weaponType, newBalance);
    }

    /** `Handle_C_GUN_SHOT_LOBBY`: a context without a user id shoots nothing. */
    method HandleGunShotLobby(id: string, readOk: bool, reply: seq<Entry>, r: Reply)
      requires readOk ==> Lists(UserOf(redis.store, id), reply)
      modifies redis`store
      ensures id == "" || !redis.connected ==> forall u :: UserOf(redis.store, u) == UserOf(old(redis.store), u)
      ensures UserOf(redis.store, id) ==
              if id != "" && redis.connected && readOk && Default(UserOf(old(redis.store), id).weapon) != 0
                 && Default(UserOf(old(redis.store), id).ammo) > 0 && Applies(r)
              then UserOf(old(redis.store), id).(ammo := Some(Default(UserOf(old(redis.store), id).ammo) - 1))
              else UserOf(old(redis.store), id)
      ensures id != "" && redis.connected ==> UserOf(redis.store, id) == Shoot(UserOf(old(redis.store), id), readOk, r)
      ensures forall other :: other != id ==> UserOf(redis.store, other) == UserOf(old(redis.store), other)
    {
      if id == "" { return; }
      var ok, remaining := redis.ConsumeLobbyAmmo(id, readOk, reply, r);
    }
  }
}
