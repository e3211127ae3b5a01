/** The objects and the frame loop of the tower-defense prototype.

    Tower and Enemy objects have their fields updated in place; the Game
    object holds what the program keeps in globals. Every pass of the loop
    body is a method whose postcondition ties the new state (`State()`, the
    values of all fields) to the matching function of module Rules applied
    to the old state; `Step` runs the passes in order and so follows
    `Rules.Frame`. Objects in the tower and enemy lists are pairwise
    distinct (`Unaliased`), which is what makes `list.remove(obj)` remove
    the object at its own position. */
module Prototype {
  import opened Lists
  import opened Rules

  class Tower {
    const kind: Kind
    const x: real
    const y: real
    var cooldown: int

    /** A new tower at a click position, off cooldown. */
    constructor (kind: Kind, x: int, y: int)
      ensures View() == NewTower(kind, x, y)
    {
      this.kind := kind;
      this.x := x as real;
      this.y := y as real;
      cooldown := 0;
    }

    function View(): TowerV
      reads this
    {
      TowerV(kind, x, y, cooldown)
    }

    method Update(dt: nat)
      modifies this
      ensures View() == Tick(old(View()), dt)
    {
      if kind == Tree && cooldown > 0 {
        cooldown := cooldown - dt;
      }
    }

    predicate CanShoot()
      reads this
    {
      Rules.CanShoot(View())
    }

    method Shoot()
      modifies this
      ensures View() == Rules.Shoot(old(View()))
    {
      cooldown := TreeCooldown;
    }
  }

  class Enemy {
    var x: real
    const y: real
    var health: int

    /** A new enemy at the left edge, in the row drawn at random. */
    constructor (y: int)
      ensures View() == NewEnemy(y)
    {
      x := 0.0;
      this.y := y as real;
      health := EnemyHealth;
    }

    function View(): EnemyV
      reads this
    {
      EnemyV(x, y, health)
    }

    method Update(dt: nat)
      modifies this
      ensures View() == Move(old(View()), dt)
    {
      x := x + EnemySpeed * (dt as real / 1000.0);
    }

    predicate IsDead()
      reads this
    {
      Dead(View())
    }
  }

  /** The field values of a list of tower objects. */
  function TowerViews(ts: seq<Tower>): (r: seq<TowerV>)
    reads ts
    ensures |r| == |ts| && forall i {:trigger r[i]} :: 0 <= i < |ts| ==> r[i] == ts[i].View()
  {
    seq(|ts|, i requires 0 <= i < |ts| reads ts => ts[i].View())
  }

  /** The field values of a list of enemy objects (TowerViews for the
      other class). */
  function EnemyViews(es: seq<Enemy>): (r: seq<EnemyV>)
    reads es
    ensures |r| == |es| && forall i {:trigger r[i]} :: 0 <= i < |es| ==> r[i] == es[i].View()
  {
    seq(|es|, i requires 0 <= i < |es| reads es => es[i].View())
  }

  /** Tower objects that enemy `e` does not destroy (only constant fields
      are read, so this is a plain function of the object). */
  function IntactObj(e: EnemyV): Tower -> bool {
    (t: Tower) => !Crushes(e, t.kind, t.x, t.y)
  }

  lemma TowerViewsAppend(ts: seq<Tower>, t: Tower)
    ensures TowerViews(ts + [t]) == TowerViews(ts) + [t.View()]
  {
  }

  lemma EnemyViewsAppend(es: seq<Enemy>, e: Enemy)
    ensures EnemyViews(es + [e]) == EnemyViews(es) + [e.View()]
  {
  }

  /** Filtering tower objects and then taking their fields is taking their
      fields and then filtering with the same test. */
  lemma {:induction false} TowerViewsFilter(ts: seq<Tower>, e: EnemyV)
    ensures TowerViews(Filter(ts, IntactObj(e))) == Filter(TowerViews(ts), Intact(e))
  {
    if ts != [] {
      var init, last := ts[..|ts| - 1], ts[|ts| - 1];
      TowerViewsFilter(init, e);
      assert ts == init + [last];
      TowerViewsAppend(init, last);
      assert TowerViews(ts)[..|ts| - 1] == TowerViews(init);
      if IntactObj(e)(last) {
        TowerViewsAppend(Filter(init, IntactObj(e)), last);
      }
    }
  }

  /** The fields of the given enemy objects, recorded at the start of a pass. */
  lemma TakeSnapshot(es: seq<Enemy>) returns (fields: map<Enemy, EnemyV>)
    ensures forall i :: 0 <= i < |es| ==> es[i] in fields && fields[es[i]] == es[i].View()
  {
    fields := map e | e in es :: e.View();
  }

  /** Enemy objects kept by the removal pass, judged by the fields they had
      when the pass began (recorded in `fields`). */
  function Kept(fields: map<Enemy, EnemyV>): Enemy -> bool {
    (e: Enemy) => e in fields && Remains(fields[e])
  }

  lemma {:induction false} EnemyViewsFilter(es: seq<Enemy>, fields: map<Enemy, EnemyV>)
    requires forall i :: 0 <= i < |es| ==> es[i] in fields && fields[es[i]] == es[i].View()
    ensures EnemyViews(Filter(es, Kept(fields))) == Filter(EnemyViews(es), Remains)
  {
    if es != [] {
      var init, last := es[..|es| - 1], es[|es| - 1];
      EnemyViewsFilter(init, fields);
      assert es == init + [last];
      EnemyViewsAppend(init, last);
      assert EnemyViews(es)[..|es| - 1] == EnemyViews(init);
      if Kept(fields)(last) {
        EnemyViewsAppend(Filter(init, Kept(fields)), last);
      }
    }
  }

  /** One frame's inputs: the events polled, the time `clock.tick` reported
      and the row an enemy spawned this frame would get. */
  datatype FrameInput = FrameInput(events: seq<Event>, dt: nat, spawnY: int)

  predicate RowInField(y: int) {
    SpawnMargin <= y <= FieldHeight - SpawnMargin
  }

  /** The frames the main loop plays: a frame after the one that stopped
      the game changes nothing. */
  function Run(w: World, frames: seq<FrameInput>): World
    decreases |frames|
  {
    if frames == [] then w
    else
      var before := Run(w, frames[..|frames| - 1]);
      var f := frames[|frames| - 1];
      if before.running then Frame(before, f.events, f.dt, f.spawnY) else before
  }

  /** Any number of frames keeps the invariant, and a game that has ended
      stays ended with its city health spent or a quit received. */
  lemma {:induction false} RunRule(w: World, frames: seq<FrameInput>)
    requires Sane(w)
    ensures var r := Run(w, frames);
      && Sane(r)
      && r.cityHealth <= w.cityHealth
      && (!w.running ==> r == w)
      && (|frames| > 0 && r.cityHealth <= 0 ==> !r.running)
    decreases |frames|
  {
    if frames != [] {
      var init := frames[..|frames| - 1];
      RunRule(w, init);
      var before := Run(w, init);
      var f := frames[|frames| - 1];
      if before.running {
        FrameRule(before, f.events, f.dt, f.spawnY);
      }
    }
  }

  /** Where the removal scan of `copy` stands after its first `i` enemies,
      given the enemies' fields at the start (`fields`, `es0`): the list
      has lost the enemies among them that are not kept ... */
  ghost function ListAfter(copy: seq<Enemy>, fields: map<Enemy, EnemyV>, i: nat): seq<Enemy>
    requires i <= |copy|
  {
    if i == 0 then copy
    else
      var r, e := ListAfter(copy, fields, i - 1), copy[i - 1];
      if Kept(fields)(e) || e !in r then r else RemoveFirst(r, e)
  }

  /** ... the money has the bounty of the dead ones ... (CashAfter and
      HealthAfter restate Bounty and Escapes by position rather than by
      prefix, which keeps the scan's loop invariants cheap to check;
      AfterIsTotal proves the two forms equal.) */
  ghost function CashAfter(es0: seq<EnemyV>, money: real, i: nat): real
    requires i <= |es0|
  {
    if i == 0 then money
    else CashAfter(es0, money, i - 1) + (if Dead(es0[i - 1]) then KillReward else 0.0)
  }

  /** ... and the city health has lost a point for each escaped one. */
  ghost function HealthAfter(es0: seq<EnemyV>, cityHealth: int, i: nat): int
    requires i <= |es0|
  {
    if i == 0 then cityHealth
    else HealthAfter(es0, cityHealth, i - 1) - (if Escaped(es0[i - 1]) then 1 else 0)
  }

  /** The running totals of the scan agree with the frame rule's totals. */
  lemma {:induction false} AfterIsTotal(es0: seq<EnemyV>, money: real, cityHealth: int, i: nat)
    requires i <= |es0|
    ensures CashAfter(es0, money, i) == money + Bounty(es0[..i])
    ensures HealthAfter(es0, cityHealth, i) == cityHealth - Escapes(es0[..i])
  {
    if i == 0 {
      assert es0[..0] == [];
    } else {
      AfterIsTotal(es0, money, cityHealth, i - 1);
      assert es0[..i][..i - 1] == es0[..i - 1];
    }
  }

  /** Of a duplicate-free list, the scan has removed exactly the rejected
      enemies among the first `i` and not touched the others. */
  lemma {:induction false} ListAfterIs(copy: seq<Enemy>, fields: map<Enemy, EnemyV>, i: nat)
    requires Distinct(copy) && i <= |copy|
    ensures ListAfter(copy, fields, i) == Filter(copy[..i], Kept(fields)) + copy[i..]
  {
    if i == 0 {
      assert copy[..0] == [] && copy[0..] == copy;
    } else {
      ListAfterIs(copy, fields, i - 1);
      FilterStep(copy, i - 1, Kept(fields));
      var r, e := ListAfter(copy, fields, i - 1), copy[i - 1];
      if !Kept(fields)(e) {
        assert e in r;
        assert ListAfter(copy, fields, i) == RemoveFirst(r, e);
      }
    }
  }

  /** After the scan the list holds the enemies that remain, in order, and
      every enemy is paid for. */
  lemma ScanEnds(copy: seq<Enemy>, fields: map<Enemy, EnemyV>, money: real, cityHealth: int)
    requires Distinct(copy)
    requires forall i :: 0 <= i < |copy| ==> copy[i] in fields && fields[copy[i]] == copy[i].View()
    ensures var r := ListAfter(copy, fields, |copy|);
      && Distinct(r) && (forall e :: e in r ==> e in copy)
      && EnemyViews(r) == Filter(EnemyViews(copy), Remains)
    ensures CashAfter(EnemyViews(copy), money, |copy|) == money + Bounty(EnemyViews(copy))
    ensures HealthAfter(EnemyViews(copy), cityHealth, |copy|) == cityHealth - Escapes(EnemyViews(copy))
  {
    var es0 := EnemyViews(copy);
    ListAfterIs(copy, fields, |copy|);
    assert copy[..|copy|] == copy && copy[|copy|..] == [] && es0[..|es0|] == es0;
    AfterIsTotal(es0, money, cityHealth, |es0|);
    FilterDistinct(copy, Kept(fields));
    EnemyViewsFilter(copy, fields);
    var r := ListAfter(copy, fields, |copy|);
    assert r == Filter(copy, Kept(fields));
  }

  /** One step of the scan, in the three ways `JudgeEnemy` treats the enemy
      at `i`; a rejected enemy is still in the list when the scan reaches it. */
  lemma ScanNext(copy: seq<Enemy>, fields: map<Enemy, EnemyV>, es0: seq<EnemyV>,
                 money: real, cityHealth: int, i: nat)
    requires Distinct(copy) && i < |copy| == |es0|
    requires copy[i] in fields && fields[copy[i]] == es0[i]
    ensures var r, c, h := ListAfter(copy, fields, i), CashAfter(es0, money, i), HealthAfter(es0, cityHealth, i);
      && (!Remains(es0[i]) ==> copy[i] in r)
      && (Remains(es0[i]) ==>
            ListAfter(copy, fields, i + 1) == r && CashAfter(es0, money, i + 1) == c
            && HealthAfter(es0, cityHealth, i + 1) == h)
      && (Dead(es0[i]) ==>
            ListAfter(copy, fields, i + 1) == RemoveFirst(r, copy[i])
            && CashAfter(es0, money, i + 1) == c + KillReward && HealthAfter(es0, cityHealth, i + 1) == h)
      && (Escaped(es0[i]) ==>
            ListAfter(copy, fields, i + 1) == RemoveFirst(r, copy[i])
            && CashAfter(es0, money, i + 1) == c && HealthAfter(es0, cityHealth, i + 1) == h - 1)
  {
    ListAfterIs(copy, fields, i);
    assert copy[i..] == [copy[i]] + copy[i + 1..];
  }

  /** The removal scan's treatment of one enemy `e` of the list: a dead one
      is removed for the kill reward, an escaped one is removed at the cost
      of a city health point, any other one stays. */
  method JudgeEnemy(e: Enemy, remaining: seq<Enemy>, cash: real, health: int)
      returns (remaining': seq<Enemy>, cash': real, health': int)
    requires !Remains(e.View()) ==> e in remaining
    ensures Remains(e.View()) ==> remaining' == remaining && cash' == cash && health' == health
    ensures Dead(e.View()) ==>
      remaining' == RemoveFirst(remaining, e) && cash' == cash + KillReward && health' == health
    ensures Escaped(e.View()) ==>
      remaining' == RemoveFirst(remaining, e) && cash' == cash && health' == health - 1
  {
    remaining', cash', health' := remaining, cash, health;
    if e.IsDead() {
      remaining' := RemoveFirst(remaining, e);
      cash' := cash + KillReward;
    } else if e.x > FieldWidth {
      remaining' := RemoveFirst(remaining, e);
      health' := health - 1;
    }
  }

  /** The removal scan of the frame: walk a copy of the enemy list and
      remove every dead or escaped enemy from the list, paying the kill
      reward or taking a city health point for it. The list, the money and
      the city health are passed in and handed back, so no object changes
      while the scan runs. */
  method ScanEnemies(enemies: seq<Enemy>, money: real, cityHealth: int)
      returns (remaining: seq<Enemy>, cash: real, health: int)
    requires Distinct(enemies)
    ensures Distinct(remaining)
    ensures forall e :: e in remaining ==> e in enemies
    ensures EnemyViews(remaining) == Filter(EnemyViews(enemies), Remains)
    ensures cash == money + Bounty(EnemyViews(enemies))
    ensures health == cityHealth - Escapes(EnemyViews(enemies))
  {
    var copy := enemies;
    remaining, cash, health := enemies, money, cityHealth;
    ghost var es0 := EnemyViews(copy);
    ghost var fields := TakeSnapshot(copy);
    var i: nat := 0;
    while i < |copy|
      invariant i <= |copy|
      invariant remaining == ListAfter(copy, fields, i)
      invariant cash == CashAfter(es0, money, i)
      invariant health == HealthAfter(es0, cityHealth, i)
    {
      var e := copy[i];
      ScanNext(copy, fields, es0, money, cityHealth, i);
      remaining, cash, health := JudgeEnemy(e, remaining, cash, health);
      i := i + 1;
    }
    ScanEnds(copy, fields, money, cityHealth);
  }

  class Game {
    var money: real
    var power: real
    var cityHealth: int
    var selected: Kind
    var towers: seq<Tower>
    var enemies: seq<Enemy>
    var spawnTimer: int
    var running: bool

    /** The values of all the state the frame loop works on. */
    function State(): World
      reads this, towers, enemies
    {
      World(money, power, cityHealth, selected, TowerViews(towers), EnemyViews(enemies), spawnTimer, running)
    }

    ghost predicate Unaliased()
      reads this
    {
      Distinct(towers) && Distinct(enemies)
    }

    /** `Sane(State())`, read off the fields it needs. */
    ghost predicate Valid()
      reads this
    {
      Unaliased() && money >= 0.0 && power >= 0.0 && 0 <= spawnTimer <= SpawnInterval
    }

    /** The globals at program start. */
    constructor ()
      ensures Valid() && State() == Initial()
    {
      money := StartMoney;
      power := StartPower;
      cityHealth := StartCityHealth;
      selected := Tree;
      towers := [];
      enemies := [];
      spawnTimer := 0;
      running := true;
    }

    /** A click: build the selected tower at the click position if the
        money covers its cost. */
    method Purchase(x: int, y: int)
      requires Unaliased()
      modifies this`towers, this`money
      ensures Unaliased()
      ensures fresh(set t | t in towers && t !in old(towers))
      ensures State() == Rules.Purchase(old(State()), x, y)
    {
      ghost var ts := towers;
      var t: Tower;
      if selected == Tree && money >= TreeCost {
        t := new Tower(Tree, x, y);
        money := money - TreeCost;
      } else if selected == Solar && money >= SolarCost {
        t := new Tower(Solar, x, y);
        money := money - SolarCost;
      } else if selected == Recycle && money >= RecycleCost {
        t := new Tower(Recycle, x, y);
        money := money - RecycleCost;
      } else {
        return;
      }
      assert t !in ts;
      DistinctSnoc(ts, t);
      towers := towers + [t];
      TowerViewsAppend(ts, t);
    }

    /** One event: quit, a selection key, or a purchase click. */
    method HandleEvent(ev: Event)
      requires Unaliased()
      modifies this`running, this`selected, this`towers, this`money
      ensures Unaliased()
      ensures fresh(set t | t in towers && t !in old(towers))
      ensures State() == Rules.HandleEvent(old(State()), ev)
    {
      match ev
      case Quit =>
        running := false;
      case KeyDown(key) =>
        if key == Key1 {
          selected := Tree;
        } else if key == Key2 {
          selected := Solar;
        } else if key == Key3 {
          selected := Recycle;
        }
      case Click(x, y) =>
        Purchase(x, y);
      case Other =>
    }

    /** Drain the frame's event queue in order. */
    method HandleEvents(evs: seq<Event>)
      requires Unaliased()
      modifies this`running, this`selected, this`towers, this`money
      ensures Unaliased()
      ensures fresh(set t | t in towers && t !in old(towers))
      ensures State() == Rules.HandleEvents(old(State()), evs)
    {
      var i := 0;
      while i < |evs|
        invariant 0 <= i <= |evs|
        invariant Unaliased()
        invariant fresh(set t | t in towers && t !in old(towers))
        invariant State() == Rules.HandleEvents(old(State()), evs[..i])
      {
        HandleEvent(evs[i]);
        assert evs[..i + 1][..i] == evs[..i];
        i := i + 1;
      }
      assert evs[..i] == evs;
    }

    /** Run down every tower's cooldown. */
    method UpdateTowers(dt: nat)
      requires Unaliased()
      modifies towers
      ensures State() == old(State()).(towers := TickAll(old(State()).towers, dt))
    {
      DistinctPairwise(towers);
      var i := 0;
      while i < |towers|
        invariant 0 <= i <= |towers|
        invariant forall k :: 0 <= k < i ==> towers[k].View() == Tick(old(towers[k].View()), dt)
        invariant forall k :: i <= k < |towers| ==> towers[k].View() == old(towers[k].View())
      {
        towers[i].Update(dt);
        i := i + 1;
      }
      assert TowerViews(towers) == TickAll(old(TowerViews(towers)), dt);
    }

    /** Advance the spawn timer and spawn an enemy once it is past the
        interval. */
    method SpawnEnemy(dt: nat, y: int)
      requires Unaliased()
      modifies this`spawnTimer, this`enemies
      ensures Unaliased()
      ensures fresh(set e | e in enemies && e !in old(enemies))
      ensures forall e :: e in old(enemies) ==> e in enemies
      ensures State() == Spawn(old(State()), dt, y)
    {
      spawnTimer := spawnTimer + dt;
      if spawnTimer > SpawnInterval {
        var e := new Enemy(y);
        assert e !in enemies;
        DistinctSnoc(enemies, e);
        enemies := enemies + [e];
        spawnTimer := 0;
      }
    }

    /** Move every enemy. */
    method UpdateEnemies(dt: nat)
      requires Unaliased()
      modifies enemies
      ensures State() == old(State()).(enemies := MoveAll(old(State()).enemies, dt))
      ensures forall e :: e in old(enemies) ==> old(e.x) <= e.x
    {
      DistinctPairwise(enemies);
      var i := 0;
      while i < |enemies|
        invariant 0 <= i <= |enemies|
        invariant forall k :: 0 <= k < i ==> enemies[k].View() == Move(old(enemies[k].View()), dt)
        invariant forall k :: i <= k < |enemies| ==> enemies[k].View() == old(enemies[k].View())
      {
        enemies[i].Update(dt);
        i := i + 1;
      }
      assert EnemyViews(enemies) == MoveAll(old(EnemyViews(enemies)), dt);
    }

    /** One tower's shot: if it can shoot, scan the enemies in order and hit
        the first one in range. */
    method TowerFires(t: Tower)
      requires Unaliased()
      modifies t, enemies
      ensures t.View() == FireOne(old(t.View()), old(EnemyViews(enemies))).0
      ensures EnemyViews(enemies) == FireOne(old(t.View()), old(EnemyViews(enemies))).1
      ensures forall k :: 0 <= k < |towers| && towers[k] != t ==> towers[k].View() == old(towers[k].View())
      ensures forall e :: e in enemies ==> e.x == old(e.x)
    {
      if t.CanShoot() {
        DistinctPairwise(enemies);
        ghost var es := EnemyViews(enemies);
        var j := 0;
        while j < |enemies|
          invariant 0 <= j <= |enemies|
          invariant forall k :: 0 <= k < j ==> !InRange(t.View(), enemies[k].View())
          invariant t.View() == old(t.View()) && EnemyViews(enemies) == es
          invariant forall e :: e in enemies ==> e.x == old(e.x)
        {
          var e := enemies[j];
          if InRange(t.View(), e.View()) {
            e.health := e.health - TreeDamage;
            t.Shoot();
            assert IsFirstInRange(old(t.View()), es, j);
            assert EnemyViews(enemies) == es[j := es[j].(health := es[j].health - TreeDamage)];
            return;
          }
          j := j + 1;
        }
      }
    }

    /** Every tower in order takes its shot. */
    method TowersShoot()
      requires Unaliased()
      modifies towers, enemies
      ensures State() == old(State()).(towers := FireAll(old(State()).towers, old(State()).enemies).0,
                                       enemies := FireAll(old(State()).towers, old(State()).enemies).1)
      ensures forall e :: e in old(enemies) ==> e.x == old(e.x)
    {
      DistinctPairwise(towers);
      ghost var ts0 := TowerViews(towers);
      ghost var es0 := EnemyViews(enemies);
      ghost var done: seq<TowerV> := [];
      var i := 0;
      while i < |towers|
        invariant 0 <= i <= |towers| && |done| == i
        invariant forall k :: 0 <= k < i ==> towers[k].View() == done[k]
        invariant forall k :: i <= k < |towers| ==> towers[k].View() == ts0[k]
        invariant done == FireAll(ts0[..i], es0).0
        invariant EnemyViews(enemies) == FireAll(ts0[..i], es0).1
        invariant forall e :: e in enemies ==> e.x == old(e.x)
      {
        FireAllNext(ts0, es0, i);
        TowerFires(towers[i]);
        done := done + [towers[i].View()];
        i := i + 1;
      }
      assert ts0[..i] == ts0;
      assert TowerViews(towers) == done;
    }

    /** One enemy's collision scan: walk a copy of the tower list and
        remove every fragile tower the enemy touches. */
    method CrushTowers(e: EnemyV)
      requires Unaliased()
      modifies this`towers
      ensures Unaliased()
      ensures forall t :: t in towers ==> t in old(towers)
      ensures towers == Filter(old(towers), IntactObj(e))
    {
      var copy := towers;
      var j := 0;
      while j < |copy|
        invariant 0 <= j <= |copy|
        invariant towers == Filter(copy[..j], IntactObj(e)) + copy[j..]
      {
        var t := copy[j];
        FilterStep(copy, j, IntactObj(e));
        if Crushes(e, t.kind, t.x, t.y) {
          towers := RemoveFirst(towers, t);
        }
        j := j + 1;
      }
      assert copy[..j] == copy && copy[j..] == [];
      assert towers == Filter(copy, IntactObj(e));
      FilterDistinct(copy, IntactObj(e));
    }

    /** Every enemy, in order, destroys the fragile towers it touches. */
    method CheckCollisions()
      requires Unaliased()
      modifies this`towers
      ensures Unaliased()
      ensures forall t :: t in towers ==> t in old(towers)
      ensures State() == old(State()).(towers := CollideAll(old(State()).towers, old(State()).enemies))
    {
      ghost var ts0 := TowerViews(towers);
      ghost var es0 := EnemyViews(enemies);
      var i := 0;
      while i < |enemies|
        invariant 0 <= i <= |enemies|
        invariant Unaliased()
        invariant forall t :: t in towers ==> t in old(towers)
        invariant TowerViews(towers) == CollideAll(ts0, es0[..i])
      {
        var e := enemies[i].View();
        assert e == es0[i];
        assert es0[..i + 1][..i] == es0[..i];
        ghost var next := Spared(CollideAll(ts0, es0[..i]), e);
        assert CollideAll(ts0, es0[..i + 1]) == next;
        ghost var before := towers;
        CrushTowers(e);
        TowerViewsFilter(before, e);
        assert TowerViews(towers) == next;
        i := i + 1;
      }
      assert es0[..i] == es0;
    }

    /** Drop dead enemies for the kill reward and escaped ones at the cost
        of a city health point. */
    method RemoveEnemies()
      requires Unaliased()
      modifies this`enemies, this`money, this`cityHealth
      ensures Unaliased()
      ensures forall e :: e in enemies ==> e in old(enemies)
      ensures State() == Cull(old(State()))
    {
      ghost var w := State();
      var remaining, cash, health := ScanEnemies(enemies, money, cityHealth);
      ghost var kept := EnemyViews(remaining);
      enemies, money, cityHealth := remaining, cash, health;
      assert TowerViews(towers) == w.towers;
      assert EnemyViews(enemies) == kept;
    }

    /** Solar and Recycle production, then the floor at zero. */
    method UpdateResources(dt: nat)
      modifies this`money, this`power
      ensures State() == Economy(old(State()), dt)
    {
      var numSolar := CountKind(TowerViews(towers), Solar);
      var numRecycle := CountKind(TowerViews(towers), Recycle);
      power := power + Output(numSolar, 1.0, dt);
      power := power - Output(numRecycle, 3.0, dt);
      money := money + Output(numRecycle, 1.0, dt);
      money := Max(money, 0.0);
      power := Max(power, 0.0);
    }

    /** The events, the tower cooldowns, the spawn timer and the enemy
        movement of one frame. */
    method Prepare(evs: seq<Event>, dt: nat, y: int)
      requires Unaliased()
      modifies this`running, this`selected, this`towers, this`money, this`spawnTimer, this`enemies
      modifies towers, enemies
      ensures Unaliased()
      ensures fresh(set t | t in towers && t !in old(towers))
      ensures fresh(set e | e in enemies && e !in old(enemies))
      ensures forall e :: e in old(enemies) ==> e in enemies && old(e.x) <= e.x
      ensures State() == Rules.Prepare(old(State()), evs, dt, y)
    {
      HandleEvents(evs);
      UpdateTowers(dt);
      SpawnEnemy(dt, y);
      UpdateEnemies(dt);
    }

    /** The shots, collisions and removals of one frame. */
    method Combat()
      requires Unaliased()
      modifies this`towers, this`enemies, this`money, this`cityHealth
      modifies towers, enemies
      ensures Unaliased()
      ensures forall t :: t in towers ==> t in old(towers)
      ensures forall e :: e in enemies ==> e in old(enemies)
      ensures forall e :: e in old(enemies) ==> e.x == old(e.x)
      ensures State() == Rules.Combat(old(State()))
    {
      TowersShoot();
      CheckCollisions();
      RemoveEnemies();
    }

    /** The resource update and the game-over check that close a frame. */
    method Settle(dt: nat)
      modifies this`money, this`power, this`running
      ensures State() == EndCheck(Economy(old(State()), dt))
    {
      UpdateResources(dt);
      ghost var w := State();
      if cityHealth <= 0 {
        running := false;
      }
      assert State() == EndCheck(w);
    }

    /** The body of the main loop, without drawing. */
    method Step(evs: seq<Event>, dt: nat, y: int)
      requires Valid()
      requires RowInField(y)
      modifies this, towers, enemies
      ensures Valid()
      ensures fresh(set t | t in towers && t !in old(towers))
      ensures fresh(set e | e in enemies && e !in old(enemies))
      ensures forall e :: e in old(enemies) ==> old(e.x) <= e.x
      ensures State() == Frame(old(State()), evs, dt, y)
    {
      Prepare(evs, dt, y);
      Combat();
      Settle(dt);
      FrameRule(old(State()), evs, dt, y);
    }

    /** The main loop: play frames while the game is running. */
    method Play(frames: seq<FrameInput>) returns (played: nat)
      requires Valid()
      requires forall i :: 0 <= i < |frames| ==> RowInField(frames[i].spawnY)
      modifies this, towers, enemies
      ensures Valid()
      ensures played <= |frames|
      ensures played < |frames| ==> !running
      ensures forall e :: e in old(enemies) ==> old(e.x) <= e.x
      ensures State() == Run(old(State()), frames)
    {
      played := 0;
      while running && played < |frames|
        invariant 0 <= played <= |frames|
        invariant Valid()
        invariant fresh(set t | t in towers && t !in old(towers))
        invariant fresh(set e | e in enemies && e !in old(enemies))
        invariant forall e :: e in old(enemies) ==> old(e.x) <= e.x
        invariant State() == Run(old(State()), frames[..played])
      {
        var f := frames[played];
        assert frames[..played + 1][..played] == frames[..played];
        Step(f.events, f.dt, f.spawnY);
        played := played + 1;
      }
      StoppedStaysStopped(old(State()), frames, played);
    }
  }

  /** Frames after the game has stopped change nothing. */
  lemma {:induction false} StoppedStaysStopped(w: World, frames: seq<FrameInput>, n: nat)
    requires n <= |frames|
    requires n < |frames| ==> !Run(w, frames[..n]).running
    ensures Run(w, frames) == Run(w, frames[..n])
    decreases |frames| - n
  {
    if n < |frames| {
      assert frames[..n + 1][..n] == frames[..n];
      StoppedStaysStopped(w, frames, n + 1);
    } else {
      assert frames[..n] == frames;
    }
  }
}
