/** The rules of one frame of the tower-defense prototype, on values.

    A `World` holds everything the frame loop of prototype.py reads and
    writes: the money, power and city-health globals, the tower and enemy
    lists (as the values of their objects' fields), the spawn timer, the
    selected tower type and the `running` flag. Each pass of the loop body is
    a function from the old world to the new one and `Frame` runs them in the
    loop's order. The classes of module Prototype are proved to follow these
    functions; the lemmas here state what the rules guarantee. */
module Rules {
  import opened Lists

  // Field size, economy and unit constants of prototype.py.
  const FieldWidth: real := 800.0
  const FieldHeight: int := 600
  const StartMoney: real := 100.0
  const StartPower: real := 300.0
  const StartCityHealth: int := 10
  const TreeCost: real := 5.0
  const SolarCost: real := 10.0
  const RecycleCost: real := 50.0
  const TowerRadius: real := 20.0
  const EnemyHalfSize: real := 10.0
  const TreeRange: real := 100.0
  const TreeDamage: int := 2
  const TreeCooldown: int := 1000
  const EnemySpeed: real := 50.0
  const EnemyHealth: int := 5
  const SpawnMargin: int := 50
  const SpawnInterval: int := 2000
  const KillReward: real := 5.0

  datatype Kind = Tree | Solar | Recycle

  /** The number keys the prototype listens to; any other key is `OtherKey`. */
  datatype Key = Key1 | Key2 | Key3 | OtherKey

  /** One entry of the event queue. A click carries the mouse position read
      while the click is handled. */
  datatype Event = Quit | KeyDown(key: Key) | Click(x: int, y: int) | Other

  /** The fields of a Tower object. Towers other than Tree have no cooldown
      in the source; here theirs stays 0 and is never read. */
  datatype TowerV = TowerV(kind: Kind, x: real, y: real, cooldown: int)

  /** The fields of an Enemy object (speed is the constant EnemySpeed). */
  datatype EnemyV = EnemyV(x: real, y: real, health: int)

  datatype World = World(
    money: real,
    power: real,
    cityHealth: int,
    selected: Kind,
    towers: seq<TowerV>,
    enemies: seq<EnemyV>,
    spawnTimer: int,
    running: bool)

  /** The globals before the first frame. */
  function Initial(): World {
    World(StartMoney, StartPower, StartCityHealth, Tree, [], [], 0, true)
  }

  /** The invariant every frame keeps: no negative resources and a spawn
      timer that never holds more than one interval. */
  predicate Sane(w: World) {
    w.money >= 0.0 && w.power >= 0.0 && 0 <= w.spawnTimer <= SpawnInterval
  }

  function Max(a: real, b: real): real {
    if a >= b then a else b
  }

  /** Squared Euclidean distance: `hypot(dx, dy) <= r` is `Dist2 <= r * r`
      for r >= 0, so no square root is needed. */
  function Dist2(x1: real, y1: real, x2: real, y2: real): (d: real)
    ensures d >= 0.0
  {
    (x1 - x2) * (x1 - x2) + (y1 - y2) * (y1 - y2)
  }

  // ---------------------------------------------------------------------
  // Input events

  function Cost(k: Kind): real {
    match k
    case Tree => TreeCost
    case Solar => SolarCost
    case Recycle => RecycleCost
  }

  /** A freshly built tower at the click position. */
  function NewTower(k: Kind, x: int, y: int): TowerV {
    TowerV(k, x as real, y as real, 0)
  }

  /** A click builds the selected tower at the click position if the money
      covers its cost, and pays for it; otherwise nothing happens. */
  function Purchase(w: World, x: int, y: int): (r: World)
    ensures w.money >= Cost(w.selected) ==>
      r == w.(towers := w.towers + [NewTower(w.selected, x, y)], money := w.money - Cost(w.selected))
    ensures w.money < Cost(w.selected) ==> r == w
  {
    if w.selected == Tree && w.money >= TreeCost then
      w.(towers := w.towers + [NewTower(Tree, x, y)], money := w.money - TreeCost)
    else if w.selected == Solar && w.money >= SolarCost then
      w.(towers := w.towers + [NewTower(Solar, x, y)], money := w.money - SolarCost)
    else if w.selected == Recycle && w.money >= RecycleCost then
      w.(towers := w.towers + [NewTower(Recycle, x, y)], money := w.money - RecycleCost)
    else
      w
  }

  function HandleEvent(w: World, ev: Event): World {
    match ev
    case Quit => w.(running := false)
    case KeyDown(key) =>
      if key == Key1 then w.(selected := Tree)
      else if key == Key2 then w.(selected := Solar)
      else if key == Key3 then w.(selected := Recycle)
      else w
    case Click(x, y) => Purchase(w, x, y)
    case Other => w
  }

  /** All events of one frame, oldest first. Events only touch the
      selection, the towers, the money and the `running` flag, and nothing
      restarts a stopped game. */
  function HandleEvents(w: World, evs: seq<Event>): (r: World)
    ensures r.enemies == w.enemies && r.power == w.power && r.cityHealth == w.cityHealth
    ensures r.spawnTimer == w.spawnTimer
    ensures !w.running ==> !r.running
    decreases |evs|
  {
    if evs == [] then w
    else HandleEvent(HandleEvents(w, evs[..|evs| - 1]), evs[|evs| - 1])
  }

  /** What each kind of event may change: a key sets the selection (other
      keys leave it), a quit clears only `running`, and only a click touches
      the towers or the money. */
  lemma EventEffects(w: World, ev: Event)
    ensures var r := HandleEvent(w, ev);
      && (ev == KeyDown(Key1) ==> r.selected == Tree)
      && (ev == KeyDown(Key2) ==> r.selected == Solar)
      && (ev == KeyDown(Key3) ==> r.selected == Recycle)
      && (r.selected != w.selected ==> ev.KeyDown? && ev.key != OtherKey)
      && (ev == Quit ==> r == w.(running := false))
      && (r.running != w.running ==> ev == Quit)
      && (!ev.Click? ==> r.towers == w.towers && r.money == w.money)
      && r.enemies == w.enemies && r.power == w.power && r.cityHealth == w.cityHealth
      && r.spawnTimer == w.spawnTimer
  {
  }

  /** The total price of a list of towers. */
  function Spent(ts: seq<TowerV>): real {
    if ts == [] then 0.0 else Spent(ts[..|ts| - 1]) + Cost(ts[|ts| - 1].kind)
  }

  /** The price of two lists of towers put together is the sum of their prices. */
  lemma {:induction false} SpentAppend(a: seq<TowerV>, b: seq<TowerV>)
    ensures Spent(a + b) == Spent(a) + Spent(b)
    decreases |b|
  {
    if b == [] {
      assert a + b == a;
    } else {
      var init := b[..|b| - 1];
      SpentAppend(a, init);
      assert (a + b)[..|a + b| - 1] == a + init;
    }
  }

  /** A single event adds at most one tower, at the end, and takes its
      price from money that covers it. */
  lemma EventPays(w: World, ev: Event)
    requires w.money >= 0.0
    ensures var r := HandleEvent(w, ev);
      && |w.towers| <= |r.towers| <= |w.towers| + 1
      && r.towers[..|w.towers|] == w.towers
      && r.money == w.money - Spent(r.towers[|w.towers|..])
      && r.money >= 0.0
  {
    var r := HandleEvent(w, ev);
    if r.towers == w.towers {
      assert r.towers[|w.towers|..] == [];
    } else {
      var t := NewTower(w.selected, ev.x, ev.y);
      assert r.towers == w.towers + [t];
      assert r.towers[|w.towers|..] == [t];
      assert [t][..0] == [];
    }
  }

  /** Over a whole frame of events the towers list only grows at its end, by
      at most one tower per click, every tower added was paid for at its
      price, and the money never goes negative. */
  lemma {:induction false} EventsPayForTowers(w: World, evs: seq<Event>)
    requires w.money >= 0.0
    ensures var r := HandleEvents(w, evs);
      && |w.towers| <= |r.towers| <= |w.towers| + |evs|
      && r.towers[..|w.towers|] == w.towers
      && r.money == w.money - Spent(r.towers[|w.towers|..])
      && r.money >= 0.0
    decreases |evs|
  {
    if evs == [] {
      assert w.towers[|w.towers|..] == [];
    } else {
      var prev := HandleEvents(w, evs[..|evs| - 1]);
      EventsPayForTowers(w, evs[..|evs| - 1]);
      EventPays(prev, evs[|evs| - 1]);
      var r := HandleEvent(prev, evs[|evs| - 1]);
      var n, m := |w.towers|, |prev.towers|;
      assert r.towers[n..] == prev.towers[n..] + r.towers[m..];
      SpentAppend(prev.towers[n..], r.towers[m..]);
    }
  }

  // ---------------------------------------------------------------------
  // Tower cooldowns

  /** `Tower.update`: only a Tree tower's positive cooldown runs down. */
  function Tick(t: TowerV, dt: nat): TowerV {
    if t.kind == Tree && t.cooldown > 0 then t.(cooldown := t.cooldown - dt) else t
  }

  function TickAll(ts: seq<TowerV>, dt: nat): seq<TowerV> {
    seq(|ts|, i requires 0 <= i < |ts| => Tick(ts[i], dt))
  }

  /** `Tower.can_shoot`. */
  predicate CanShoot(t: TowerV) {
    t.kind == Tree && t.cooldown <= 0
  }

  /** `Tower.shoot` puts the tower on a fresh cooldown. */
  function Shoot(t: TowerV): TowerV {
    t.(cooldown := TreeCooldown)
  }

  /** The tower after a run of frames of the given lengths in which it does
      not fire. */
  function TickMany(t: TowerV, dts: seq<nat>): TowerV
    decreases |dts|
  {
    if dts == [] then t else Tick(TickMany(t, dts[..|dts| - 1]), dts[|dts| - 1])
  }

  function Total(dts: seq<nat>): nat {
    if dts == [] then 0 else Total(dts[..|dts| - 1]) + dts[|dts| - 1]
  }

  /** A tower that has just fired cannot fire again before frames adding up
      to the whole cooldown have passed: the cooldown falls by exactly the
      time elapsed, so it stays positive until that time reaches it. */
  lemma {:induction false} CooldownWindow(t: TowerV, dts: seq<nat>)
    requires t.kind == Tree && 0 < t.cooldown
    requires Total(dts) < t.cooldown
    ensures TickMany(t, dts) == t.(cooldown := t.cooldown - Total(dts))
    ensures !CanShoot(TickMany(t, dts))
    decreases |dts|
  {
    if dts != [] {
      CooldownWindow(t, dts[..|dts| - 1]);
    }
  }

  // ---------------------------------------------------------------------
  // Spawning and movement

  /** `Enemy()` at the left edge with the drawn `y`. */
  function NewEnemy(y: int): EnemyV {
    EnemyV(0.0, y as real, EnemyHealth)
  }

  /** The spawn timer gathers the frame time; once it is past the interval
      one enemy is appended and the timer starts again from zero. */
  function Spawn(w: World, dt: nat, y: int): (r: World)
    ensures w.spawnTimer >= 0 ==> 0 <= r.spawnTimer <= SpawnInterval
    ensures w.spawnTimer + dt > SpawnInterval ==>
      r == w.(enemies := w.enemies + [NewEnemy(y)], spawnTimer := 0)
    ensures w.spawnTimer + dt <= SpawnInterval ==>
      r == w.(spawnTimer := w.spawnTimer + dt)
  {
    var timer := w.spawnTimer + dt;
    if timer > SpawnInterval then w.(enemies := w.enemies + [NewEnemy(y)], spawnTimer := 0)
    else w.(spawnTimer := timer)
  }

  /** `Enemy.update`: move right by speed times the frame time in seconds. */
  function Move(e: EnemyV, dt: nat): EnemyV {
    e.(x := e.x + EnemySpeed * (dt as real / 1000.0))
  }

  function MoveAll(es: seq<EnemyV>, dt: nat): seq<EnemyV> {
    seq(|es|, i requires 0 <= i < |es| => Move(es[i], dt))
  }

  /** Enemies never move backwards: each advances by 50 * dt / 1000 and
      keeps its row and its health. */
  lemma MoveAdvances(es: seq<EnemyV>, dt: nat)
    ensures |MoveAll(es, dt)| == |es|
    ensures forall i :: 0 <= i < |es| ==>
      && MoveAll(es, dt)[i].x == es[i].x + 50.0 * dt as real / 1000.0
      && MoveAll(es, dt)[i].x >= es[i].x
      && MoveAll(es, dt)[i].y == es[i].y
      && MoveAll(es, dt)[i].health == es[i].health
  {
  }

  // ---------------------------------------------------------------------
  // Tree towers firing

  predicate InRange(t: TowerV, e: EnemyV) {
    Dist2(t.x, t.y, e.x, e.y) <= TreeRange * TreeRange
  }

  /** `j` is the first enemy in list order within the tower's range. */
  predicate IsFirstInRange(t: TowerV, es: seq<EnemyV>, j: int) {
    0 <= j < |es| && InRange(t, es[j]) && forall k :: 0 <= k < j ==> !InRange(t, es[k])
  }

  /** The scan over the enemy list that stops at the first enemy in range. */
  function FirstInRange(t: TowerV, es: seq<EnemyV>): (r: Option<nat>)
    ensures r.Some? ==> IsFirstInRange(t, es, r.value)
    ensures r.None? ==> forall k :: 0 <= k < |es| ==> !InRange(t, es[k])
  {
    if es == [] then None
    else if InRange(t, es[0]) then Some(0)
    else match FirstInRange(t, es[1..])
      case None => None
      case Some(j) => Some(j + 1)
  }

  /** One tower's turn to fire: a Tree tower off cooldown hits the first
      enemy in range for its damage and goes on cooldown. */
  function FireOne(t: TowerV, es: seq<EnemyV>): (r: (TowerV, seq<EnemyV>))
    ensures |r.1| == |es|
  {
    if !CanShoot(t) then (t, es)
    else match FirstInRange(t, es)
      case None => (t, es)
      case Some(j) => (Shoot(t), es[j := es[j].(health := es[j].health - TreeDamage)])
  }

  /** All towers fire in list order; later towers see the healths left by
      earlier ones. */
  function FireAll(ts: seq<TowerV>, es: seq<EnemyV>): (r: (seq<TowerV>, seq<EnemyV>))
    ensures |r.0| == |ts| && |r.1| == |es|
    decreases |ts|
  {
    if ts == [] then ([], es)
    else
      var (done, es') := FireAll(ts[..|ts| - 1], es);
      var (t', es'') := FireOne(ts[|ts| - 1], es');
      (done + [t'], es'')
  }

  /** One more tower of a prefix takes its shot after the earlier ones. */
  lemma FireAllNext(ts: seq<TowerV>, es: seq<EnemyV>, i: nat)
    requires i < |ts|
    ensures var before := FireAll(ts[..i], es);
      && FireAll(ts[..i + 1], es).0 == before.0 + [FireOne(ts[i], before.1).0]
      && FireAll(ts[..i + 1], es).1 == FireOne(ts[i], before.1).1
  {
    assert ts[..i + 1][..i] == ts[..i];
  }

  /** A single tower damages at most one enemy: the first in range, by
      exactly the Tree damage, and only if it is a Tree tower that can
      shoot, in which case it goes on cooldown. Otherwise nothing changes. */
  lemma FireOneHitsFirst(t: TowerV, es: seq<EnemyV>)
    ensures (!CanShoot(t) || forall k :: 0 <= k < |es| ==> !InRange(t, es[k])) ==>
      FireOne(t, es) == (t, es)
    ensures forall j :: CanShoot(t) && IsFirstInRange(t, es, j) ==>
      FireOne(t, es) == (t.(cooldown := TreeCooldown), es[j := es[j].(health := es[j].health - 2)])
  {
  }

  /** How many towers of `ts` can shoot and have `e` in range. */
  function Shooters(ts: seq<TowerV>, e: EnemyV): nat {
    if ts == [] then 0
    else Shooters(ts[..|ts| - 1], e) + (if CanShoot(ts[|ts| - 1]) && InRange(ts[|ts| - 1], e) then 1 else 0)
  }

  /** Firing moves nothing, changes no tower's kind or position, leaves
      Solar and Recycle towers alone, and takes from each enemy at most the
      Tree damage once per tower that could shoot it; an enemy no ready Tree
      tower reaches keeps its health. */
  lemma {:induction false} FireAllBounds(ts: seq<TowerV>, es: seq<EnemyV>)
    ensures var (ts', es') := FireAll(ts, es);
      && |ts'| == |ts| && |es'| == |es|
      && (forall i :: 0 <= i < |ts| ==>
            ts'[i].kind == ts[i].kind && ts'[i].x == ts[i].x && ts'[i].y == ts[i].y)
      && (forall i :: 0 <= i < |ts| && ts[i].kind != Tree ==> ts'[i] == ts[i])
      && (forall k :: 0 <= k < |es| ==>
            && es'[k].x == es[k].x && es'[k].y == es[k].y
            && es[k].health - TreeDamage * Shooters(ts, es[k]) <= es'[k].health <= es[k].health)
    decreases |ts|
  {
    if ts != [] {
      var init, last := ts[..|ts| - 1], ts[|ts| - 1];
      FireAllBounds(init, es);
      var (done, mid) := FireAll(init, es);
      assert forall k :: 0 <= k < |es| ==> InRange(last, mid[k]) == InRange(last, es[k]);
    }
  }

  // ---------------------------------------------------------------------
  // Collisions

  predicate Fragile(k: Kind) {
    k == Solar || k == Recycle
  }

  /** Enemy `e` destroys a tower of kind `k` at (x, y): the tower is fragile
      and closer than the tower radius plus the enemy's half size. */
  predicate Crushes(e: EnemyV, k: Kind, x: real, y: real) {
    Fragile(k) && Dist2(x, y, e.x, e.y) < (TowerRadius + EnemyHalfSize) * (TowerRadius + EnemyHalfSize)
  }

  function Intact(e: EnemyV): TowerV -> bool {
    (t: TowerV) => !Crushes(e, t.kind, t.x, t.y)
  }

  /** The towers left after one enemy's collision scan. */
  function Spared(ts: seq<TowerV>, e: EnemyV): seq<TowerV> {
    Filter(ts, Intact(e))
  }

  /** The collision pass: every enemy in list order removes the fragile
      towers it touches. */
  function CollideAll(ts: seq<TowerV>, es: seq<EnemyV>): seq<TowerV>
    decreases |es|
  {
    if es == [] then ts else Spared(CollideAll(ts, es[..|es| - 1]), es[|es| - 1])
  }

  /** Some enemy of `es` destroys tower `t`. */
  predicate Doomed(t: TowerV, es: seq<EnemyV>) {
    exists k :: 0 <= k < |es| && Crushes(es[k], t.kind, t.x, t.y)
  }

  function Unharmed(es: seq<EnemyV>): TowerV -> bool {
    (t: TowerV) => !Doomed(t, es)
  }

  /** The enemy-by-enemy scans remove exactly the towers some enemy
      destroys, whatever the order of the enemies. */
  lemma {:induction false} CollideAllIsFilter(ts: seq<TowerV>, es: seq<EnemyV>)
    ensures CollideAll(ts, es) == Filter(ts, Unharmed(es))
    decreases |es|
  {
    if es == [] {
      FilterAll(ts, Unharmed(es));
    } else {
      var init, last := es[..|es| - 1], es[|es| - 1];
      CollideAllIsFilter(ts, init);
      forall t: TowerV
        ensures Unharmed(es)(t) == (Unharmed(init)(t) && Intact(last)(t))
      {
        if Doomed(t, init) {
          var k :| 0 <= k < |init| && Crushes(init[k], t.kind, t.x, t.y);
          assert es[k] == init[k];
        }
        if Doomed(t, es) {
          var k :| 0 <= k < |es| && Crushes(es[k], t.kind, t.x, t.y);
          if k < |init| { assert init[k] == es[k]; }
        }
      }
      FilterFilter(ts, Unharmed(init), Intact(last), Unharmed(es));
    }
  }

  /** The collision pass removes exactly the fragile towers that are closer
      than 30 to some enemy: Tree towers always stay, and the survivors keep
      their order. */
  lemma CollisionRemovesOnlyCrushed(ts: seq<TowerV>, es: seq<EnemyV>)
    ensures var r := CollideAll(ts, es);
      && IsSubsequence(r, ts)
      && (forall t :: t in r ==> !Doomed(t, es))
      && (forall t :: t in ts && !Doomed(t, es) ==> t in r)
      && (forall t :: t in ts && t.kind == Tree ==> t in r)
  {
    CollideAllIsFilter(ts, es);
    FilterIsSubsequence(ts, Unharmed(es));
    forall t | t in ts && !Doomed(t, es)
      ensures t in CollideAll(ts, es)
    {
      FilterKeeps(ts, Unharmed(es), t);
    }
  }

  // ---------------------------------------------------------------------
  // Removing dead and escaped enemies

  predicate Dead(e: EnemyV) {
    e.health <= 0
  }

  /** Alive but past the right edge. */
  predicate Escaped(e: EnemyV) {
    !Dead(e) && e.x > FieldWidth
  }

  predicate Remains(e: EnemyV) {
    !Dead(e) && e.x <= FieldWidth
  }

  function Kills(es: seq<EnemyV>): nat {
    if es == [] then 0 else Kills(es[..|es| - 1]) + (if Dead(es[|es| - 1]) then 1 else 0)
  }

  function Escapes(es: seq<EnemyV>): nat {
    if es == [] then 0 else Escapes(es[..|es| - 1]) + (if Escaped(es[|es| - 1]) then 1 else 0)
  }

  /** The money the dead enemies of `es` pay, one reward each. Summed
      reward by reward rather than as KillReward * Kills, which keeps the
      arithmetic linear; BountyIsReward proves the two equal. */
  function Bounty(es: seq<EnemyV>): real {
    if es == [] then 0.0 else Bounty(es[..|es| - 1]) + (if Dead(es[|es| - 1]) then KillReward else 0.0)
  }

  lemma {:induction false} BountyIsReward(es: seq<EnemyV>)
    ensures Bounty(es) == KillReward * Kills(es) as real
  {
    if es != [] {
      BountyIsReward(es[..|es| - 1]);
    }
  }

  /** The removal pass: dead enemies pay the kill reward, escaped ones cost
      the city one health point, the rest stay in order. */
  function Cull(w: World): World {
    w.(enemies := Filter(w.enemies, Remains),
       money := w.money + Bounty(w.enemies),
       cityHealth := w.cityHealth - Escapes(w.enemies))
  }

  /** Every enemy is accounted for exactly once: kept, killed or escaped. */
  lemma {:induction false} CullAccounts(es: seq<EnemyV>)
    ensures |Filter(es, Remains)| + Kills(es) + Escapes(es) == |es|
  {
    if es != [] {
      CullAccounts(es[..|es| - 1]);
    }
  }

  /** The removal pass keeps exactly the living enemies inside the field, in
      order, and changes money and city health by the reward and penalty. */
  lemma CullRule(w: World)
    ensures var r := Cull(w);
      && IsSubsequence(r.enemies, w.enemies)
      && (forall e :: e in r.enemies ==> !Dead(e) && e.x <= FieldWidth)
      && (forall e :: e in w.enemies && !Dead(e) && e.x <= FieldWidth ==> e in r.enemies)
      && |r.enemies| + Kills(w.enemies) + Escapes(w.enemies) == |w.enemies|
      && r.money == w.money + 5.0 * Kills(w.enemies) as real
      && r.cityHealth == w.cityHealth - Escapes(w.enemies)
      && r.towers == w.towers && r.power == w.power
  {
    FilterIsSubsequence(w.enemies, Remains);
    CullAccounts(w.enemies);
    BountyIsReward(w.enemies);
    forall e | e in w.enemies && Remains(e)
      ensures e in Filter(w.enemies, Remains)
    {
      FilterKeeps(w.enemies, Remains, e);
    }
  }

  // ---------------------------------------------------------------------
  // Economy and game over

  function CountKind(ts: seq<TowerV>, k: Kind): nat {
    if ts == [] then 0 else CountKind(ts[..|ts| - 1], k) + (if ts[|ts| - 1].kind == k then 1 else 0)
  }

  /** What `n` towers that each make `perSecond` units a second make in
      `dt` milliseconds. */
  function Output(n: nat, perSecond: real, dt: nat): (r: real)
    requires perSecond >= 0.0
    ensures r >= 0.0
  {
    n as real * (perSecond * dt as real / 1000.0)
  }

  /** Solar towers make 1 power per second; Recycle towers cost 3 power and
      make $1 per second; both resources are then floored at zero. */
  function Economy(w: World, dt: nat): (r: World)
    ensures r.money >= 0.0 && r.power >= 0.0
    ensures w.money >= 0.0 ==> r.money >= w.money
    ensures r.towers == w.towers && r.enemies == w.enemies && r.cityHealth == w.cityHealth
  {
    var solar := CountKind(w.towers, Solar);
    var recycle := CountKind(w.towers, Recycle);
    var power := w.power + Output(solar, 1.0, dt) - Output(recycle, 3.0, dt);
    var money := w.money + Output(recycle, 1.0, dt);
    w.(money := Max(money, 0.0), power := Max(power, 0.0))
  }

  /** Recycle towers earn money even when there is no power left: the money
      earned does not depend on the power. */
  lemma RecycleIgnoresPower(w: World, dt: nat, p: real)
    ensures Economy(w.(power := p), dt).money == Economy(w, dt).money
  {
  }

  /** The game-over check at the end of the frame. */
  function EndCheck(w: World): (r: World)
    ensures r.cityHealth <= 0 ==> !r.running
    ensures w.cityHealth > 0 ==> r == w
  {
    if w.cityHealth <= 0 then w.(running := false) else w
  }

  // ---------------------------------------------------------------------
  // The whole frame

  /** The first part of a frame: the events, the tower cooldowns, the
      spawn timer and the enemy movement. */
  function Prepare(w: World, evs: seq<Event>, dt: nat, y: int): World
  {
    var w1 := HandleEvents(w, evs);
    var w2 := w1.(towers := TickAll(w1.towers, dt));
    var w3 := Spawn(w2, dt, y);
    w3.(enemies := MoveAll(w3.enemies, dt))
  }

  /** The middle part of a frame: shots, collisions and the removal of
      dead and escaped enemies. */
  function Combat(w: World): World
  {
    var (ts, es) := FireAll(w.towers, w.enemies);
    var w5 := w.(towers := ts, enemies := es);
    Cull(w5.(towers := CollideAll(w5.towers, w5.enemies)))
  }

  /** One pass of the frame loop, in the source's order. */
  function Frame(w: World, evs: seq<Event>, dt: nat, y: int): World
  {
    EndCheck(Economy(Combat(Prepare(w, evs, dt, y)), dt))
  }

  /** A frame keeps the invariant, never raises city health, never restarts
      a stopped game, and stops the game once city health is gone. */
  lemma FrameRule(w: World, evs: seq<Event>, dt: nat, y: int)
    requires Sane(w)
    ensures var r := Frame(w, evs, dt, y);
      && Sane(r)
      && r.cityHealth <= w.cityHealth
      && (r.cityHealth <= 0 ==> !r.running)
      && (!w.running ==> !r.running)
  {
    EventsPayForTowers(w, evs);
  }
}
