/** The admin screen of admin.js: demo data seeded into absent keys, the
    user, category and package lists with their add, edit, delete and lock
    buttons, and the booking statistics shown on load. */
module Admin {
  import opened Seqs
  import opened Text

  /** A row of `tcv_users`. */
  datatype User = User(id: string, role: string, email: string, name: string, locked: bool)

  /** A row of `tcv_packages`. */
  datatype Package = Package(id: string, name: string, price: int)

  /** A row of `tcv_bookings`; a booking may lack its amount. */
  datatype Booking = Booking(id: string, amount: Option<int>, status: string, date: int)

  /** The list a stored key holds, where an absent key reads as `[]`. */
  function Items<T>(stored: Option<seq<T>>): (s: seq<T>)
    ensures stored.Some? ==> s == stored.value
    ensures stored.None? ==> s == []
  {
    if stored.Some? then stored.value else []
  }

  // ----- seeding -----

  /** `seedIfEmpty`: the sample is written only when the key holds nothing;
      a stored empty list is kept. */
  function SeedIfEmpty<T>(stored: Option<seq<T>>, sample: seq<T>): (r: Option<seq<T>>)
    ensures r.Some?
    ensures stored.Some? ==> r == stored
    ensures stored.None? ==> r.value == sample
  {
    if stored.None? then Some(sample) else stored
  }

  /** Seeding a key a second time, with any sample, changes nothing. */
  lemma SeedTwice<T>(stored: Option<seq<T>>, sample: seq<T>, again: seq<T>)
    ensures SeedIfEmpty(SeedIfEmpty(stored, sample), again) == SeedIfEmpty(stored, sample)
  {
  }

  const SampleUsers: seq<User> := [
    User("b1", "brand", "brand@ravi.vn", "RAVI", false),
    User("k1", "koc", "koc1@kol.local", "KOC A", false)
  ]

  const SampleCategories: seq<string> := ["marketing", "sales", "it"]

  const SamplePackages: seq<Package> := [Package("p1", "Basic", 100), Package("p2", "Pro", 300)]

  /** One day in milliseconds: the first sample booking is dated a day
      before the screen opens. */
  const Day: int := 86400000

  function SampleBookings(now: int): seq<Booking> {
    [Booking("bk1", Some(150), "success", now - Day), Booking("bk2", Some(250), "pending", now)]
  }

  // ----- users -----

  /** `users.find(x => x.id === id)`: the first user with the id, or -1. */
  function UserIndex(users: seq<User>, id: string): (i: int)
    ensures -1 <= i < |users|
    ensures i >= 0 ==> users[i].id == id && forall j | 0 <= j < i :: users[j].id != id
    ensures i < 0 <==> forall j | 0 <= j < |users| :: users[j].id != id
  {
    FirstIndex(users, (u: User) => u.id == id)
  }

  /** The new user of the add form: `'u' + Date.now()` as id, the trimmed
      address and name, the chosen role, not locked. */
  function NewUser(emailText: string, nameText: string, role: string, stamp: string): (u: User)
    ensures u.id == "u" + stamp && u.role == role && !u.locked
    ensures u.email == Trim(emailText) && u.name == Trim(nameText)
  {
    User("u" + stamp, role, Trim(emailText), Trim(nameText), false)
  }

  /** `saveEditUser` on the list: the first user with the id takes the
      name and the role; nobody else changes. */
  function EditedUsers(users: seq<User>, id: string, name: string, role: string): (r: seq<User>)
    ensures |r| == |users|
    ensures UserIndex(users, id) < 0 ==> r == users
    ensures forall j | 0 <= j < |users| && j != UserIndex(users, id) :: r[j] == users[j]
  {
    var i := UserIndex(users, id);
    if i < 0 then users else users[i := users[i].(name := name, role := role)]
  }

  /** The edited user keeps its id, address and lock and has exactly the
      new name and role. */
  lemma EditKeepsIdentity(users: seq<User>, id: string, name: string, role: string)
    requires UserIndex(users, id) >= 0
    ensures var i := UserIndex(users, id);
      var u, v := users[i], EditedUsers(users, id, name, role)[i];
      v.id == u.id == id && v.email == u.email && v.locked == u.locked
      && v.name == name && v.role == role
  {
  }

  /** `users.filter(x => x.id !== id)`. */
  function WithoutUser(users: seq<User>, id: string): (r: seq<User>)
  {
    Filter(users, (u: User) => u.id != id)
  }

  /** Deleting removes every user with the id and keeps every other one,
      in order. */
  lemma DeleteUserEffect(users: seq<User>, id: string, u: User)
    ensures forall v | v in WithoutUser(users, id) :: v.id != id
    ensures u in WithoutUser(users, id) <==> u in users && u.id != id
    ensures IsSubsequence(WithoutUser(users, id), users)
    ensures (forall j | 0 <= j < |users| :: users[j].id != id) ==> WithoutUser(users, id) == users
  {
    FilterMembership(users, (v: User) => v.id != id, u);
    if forall j | 0 <= j < |users| :: users[j].id != id {
      FilterAllKept(users, (v: User) => v.id != id);
    }
  }

  /** `toggleLock` on the list: the first user with the id changes its
      lock, nobody else changes. */
  function ToggledLock(users: seq<User>, id: string): (r: seq<User>)
    ensures |r| == |users|
    ensures UserIndex(users, id) < 0 ==> r == users
    ensures UserIndex(users, id) >= 0 ==> r[UserIndex(users, id)] == users[UserIndex(users, id)].(locked := !users[UserIndex(users, id)].locked)
    ensures forall j | 0 <= j < |users| && j != UserIndex(users, id) :: r[j] == users[j]
  {
    var i := UserIndex(users, id);
    if i < 0 then users else users[i := users[i].(locked := !users[i].locked)]
  }

  /** Toggling the same id twice gives the list back. */
  lemma ToggleTwice(users: seq<User>, id: string)
    ensures ToggledLock(ToggledLock(users, id), id) == users
  {
    var i := UserIndex(users, id);
    if i >= 0 {
      var once := ToggledLock(users, id);
      assert forall j | 0 <= j < |users| :: once[j].id == users[j].id;
      assert UserIndex(once, id) == i;
    }
  }

  // ----- categories and packages -----

  /** `cats.filter(x => x !== c)`. */
  function WithoutCategory(cats: seq<string>, c: string): (r: seq<string>)
  {
    Filter(cats, (x: string) => x != c)
  }

  /** Deleting a category removes every copy of the name and keeps every
      other entry, as often as it occurred and in order. */
  lemma DeleteCategoryEffect(cats: seq<string>, c: string, x: string)
    ensures c !in WithoutCategory(cats, c)
    ensures x != c ==> multiset(WithoutCategory(cats, c))[x] == multiset(cats)[x]
    ensures IsSubsequence(WithoutCategory(cats, c), cats)
  {
    FilterMembership(cats, (y: string) => y != c, c);
  }

  /** `Number(price) || 0` on the answer of the price prompt: a number, or 0
      when the answer is not one. */
  function PriceOf(price: Option<int>): (p: int)
    ensures price.Some? ==> p == price.value
    ensures price.None? ==> p == 0
  {
    if price.Some? then price.value else 0
  }

  /** `packs.filter(x => x.id !== id)`. */
  function WithoutPackage(packs: seq<Package>, id: string): (r: seq<Package>)
  {
    Filter(packs, (p: Package) => p.id != id)
  }

  /** Deleting a package removes every package with the id and keeps the
      others in order. */
  lemma DeletePackageEffect(packs: seq<Package>, id: string, p: Package)
    ensures forall q | q in WithoutPackage(packs, id) :: q.id != id
    ensures p in WithoutPackage(packs, id) <==> p in packs && p.id != id
    ensures IsSubsequence(WithoutPackage(packs, id), packs)
  {
    FilterMembership(packs, (q: Package) => q.id != id, p);
  }

  // ----- booking statistics -----

  /** `b.amount || 0`. */
  function AmountOf(b: Booking): int {
    if b.amount.Some? then b.amount.value else 0
  }

  /** `bookings.reduce((s, b) => s + (b.amount || 0), 0)`. */
  function Total(bs: seq<Booking>): int
  {
    if bs == [] then 0 else Total(bs[..|bs| - 1]) + AmountOf(bs[|bs| - 1])
  }

  /** `Math.round(a / n)` for whole `a` and positive `n`: the nearest whole
      number, halves rounded up. */
  function RoundDiv(a: int, n: int): (r: int)
    requires n > 0
    ensures 2 * r * n <= 2 * a + n < 2 * r * n + 2 * n
  {
    (2 * a + n) / (2 * n)
  }

  /** Rounding keeps order, and a whole quotient rounds to itself. */
  lemma RoundDivMonotone(a: int, b: int, n: int)
    requires n > 0 && a <= b
    ensures RoundDiv(a, n) <= RoundDiv(b, n)
  {
    var ra, rb := RoundDiv(a, n), RoundDiv(b, n);
    if ra > rb {
      assert 2 * ra * n >= 2 * rb * n + 2 * n by {
        assert ra >= rb + 1;
        MulMonotone(rb + 1, ra, 2 * n);
      }
    }
  }

  lemma MulMonotone(x: int, y: int, m: int)
    requires x <= y && m >= 0
    ensures x * m <= y * m
  {
  }

  lemma RoundDivWhole(c: int, n: int)
    requires n > 0
    ensures RoundDiv(c * n, n) == c
  {
    var r := RoundDiv(c * n, n);
    assert (2 * c * n + n) == (2 * c + 1) * n;
    if r > c {
      MulMonotone(c + 1, r, 2 * n);
    } else if r < c {
      MulMonotone(r + 1, c, 2 * n);
    }
  }

  /** The three figures of the dashboard. */
  datatype Stats = Stats(count: nat, avg: int, successRate: int)

  predicate IsSuccess(b: Booking) {
    b.status == "success"
  }

  /** `statBookings`, `statAvg` and `statSuccess`, computed from the stored
      bookings once the keys are seeded: the number of bookings,
      the rounded mean amount and the rounded percentage of successful
      bookings, each 0 without bookings. The rate is a percentage. */
  function StatsOf(bs: seq<Booking>): (s: Stats)
    ensures s.count == |bs|
    ensures bs == [] ==> s.avg == 0 && s.successRate == 0
    ensures 0 <= s.successRate <= 100
    ensures bs != [] ==> s.avg == RoundDiv(Total(bs), |bs|)
    ensures bs != [] ==> s.successRate == RoundDiv(100 * |Filter(bs, IsSuccess)|, |bs|)
  {
    if bs == [] then Stats(0, 0, 0)
    else
      var n := |bs|;
      var k := |Filter(bs, IsSuccess)|;
      RoundDivMonotone(0, 100 * k, n);
      RoundDivMonotone(100 * k, 100 * n, n);
      RoundDivWhole(0, n);
      RoundDivWhole(100, n);
      Stats(n, RoundDiv(Total(bs), n), RoundDiv(100 * k, n))
  }

  /** The total lies between the count times the smallest and the count
      times the largest amount. */
  lemma {:induction false} TotalBounds(bs: seq<Booking>, lo: int, hi: int)
    requires forall b | b in bs :: lo <= AmountOf(b) <= hi
    ensures lo * |bs| <= Total(bs) <= hi * |bs|
    decreases |bs|
  {
    if bs != [] {
      var init, last := bs[..|bs| - 1], bs[|bs| - 1];
      assert forall b | b in init :: b in bs;
      TotalBounds(init, lo, hi);
      assert last in bs;
      MulSucc(lo, |init|);
      MulSucc(hi, |init|);
    }
  }

  lemma MulSucc(c: int, n: int)
    ensures c * (n + 1) == c * n + c
  {
  }

  /** The average shown lies between the smallest and the largest amount. */
  lemma AverageBetween(bs: seq<Booking>, lo: int, hi: int)
    requires bs != []
    requires forall b | b in bs :: lo <= AmountOf(b) <= hi
    ensures lo <= StatsOf(bs).avg <= hi
  {
    var n := |bs|;
    TotalBounds(bs, lo, hi);
    RoundDivMonotone(lo * n, Total(bs), n);
    RoundDivMonotone(Total(bs), hi * n, n);
    RoundDivWhole(lo, n);
    RoundDivWhole(hi, n);
  }

  /** The admin's view of the stored keys it manages; `None` is a key
      that holds nothing. */
  class AdminStore {
    var users: Option<seq<User>>
    var categories: Option<seq<string>>
    var packages: Option<seq<Package>>
    var bookings: Option<seq<Booking>>

    constructor (users0: Option<seq<User>>, categories0: Option<seq<string>>, packages0: Option<seq<Package>>, bookings0: Option<seq<Booking>>)
      ensures users == users0 && categories == categories0
      ensures packages == packages0 && bookings == bookings0
    {
      users := users0;
      categories := categories0;
      packages := packages0;
      bookings := bookings0;
    }

    /** The four `seedIfEmpty` calls made when the screen opens. */
    method SeedAll(now: int)
      modifies this
      ensures users == SeedIfEmpty(old(users), SampleUsers)
      ensures categories == SeedIfEmpty(old(categories), SampleCategories)
      ensures packages == SeedIfEmpty(old(packages), SamplePackages)
      ensures bookings == SeedIfEmpty(old(bookings), SampleBookings(now))
    {
      if users.None? {
        users := Some(SampleUsers);
      }
      if categories.None? {
        categories := Some(SampleCategories);
      }
      if packages.None? {
        packages := Some(SamplePackages);
      }
      if bookings.None? {
        bookings := Some(SampleBookings(now));
      }
    }

    /** `addUser`: the new user is pushed after the existing ones. */
    method AddUser(emailText: string, nameText: string, role: string, stamp: string)
      modifies this
      ensures users == Some(Items(old(users)) + [NewUser(emailText, nameText, role, stamp)])
      ensures categories == old(categories) && packages == old(packages) && bookings == old(bookings)
    {
      var list := Items(users);
      list := list + [NewUser(emailText, nameText, role, stamp)];
      users := Some(list);
    }

    /** `saveEditUser`: the name field is trimmed; with no user of that id
        nothing is written. */
    method SaveEditUser(id: string, nameText: string, role: string)
      modifies this
      ensures UserIndex(Items(old(users)), id) < 0 ==> users == old(users)
      ensures UserIndex(Items(old(users)), id) >= 0 ==> users == Some(EditedUsers(Items(old(users)), id, Trim(nameText), role))
      ensures categories == old(categories) && packages == old(packages) && bookings == old(bookings)
    {
      var name := Trim(nameText);
      Rename(id, name, role);
    }

    /** The write of `saveEditUser` once the name is trimmed: the found
        user takes the name and the role in place. */
    method Rename(id: string, name: string, role: string)
      modifies this
      ensures UserIndex(Items(old(users)), id) < 0 ==> users == old(users)
      ensures UserIndex(Items(old(users)), id) >= 0 ==> users == Some(EditedUsers(Items(old(users)), id, name, role))
      ensures categories == old(categories) && packages == old(packages) && bookings == old(bookings)
    {
      var list := Items(users);
      var i := UserIndex(list, id);
      if i < 0 {
        return;
      }
      list := list[i := list[i].(name := name, role := role)];
      users := Some(list);
    }

    /** `deleteUser`: the filtered list is written back. */
    method DeleteUser(id: string)
      modifies this
      ensures users == Some(WithoutUser(Items(old(users)), id))
      ensures categories == old(categories) && packages == old(packages) && bookings == old(bookings)
    {
      users := Some(WithoutUser(Items(users), id));
    }

    /** `toggleLock`: with no user of that id nothing is written. */
    method ToggleLock(id: string)
      modifies this
      ensures UserIndex(Items(old(users)), id) < 0 ==> users == old(users)
      ensures UserIndex(Items(old(users)), id) >= 0 ==> users == Some(ToggledLock(Items(old(users)), id))
      ensures categories == old(categories) && packages == old(packages) && bookings == old(bookings)
    {
      var list := Items(users);
      var i := UserIndex(list, id);
      if i < 0 {
        return;
      }
      list := list[i := list[i].(locked := !list[i].locked)];
      users := Some(list);
    }

    /** The add-category button: a cancelled or empty answer (`""`) adds
        nothing; any other answer is pushed as typed, untrimmed and even
        when already listed. */
    method AddCategory(answer: string)
      modifies this
      ensures answer == [] ==> categories == old(categories)
      ensures answer != [] ==> categories == Some(Items(old(categories)) + [answer])
      ensures users == old(users) && packages == old(packages) && bookings == old(bookings)
    {
      if answer == [] {
        return;
      }
      var cats := Items(categories);
      cats := cats + [answer];
      categories := Some(cats);
    }

    /** The delete button of a category. */
    method DeleteCategory(c: string)
      modifies this
      ensures categories == Some(WithoutCategory(Items(old(categories)), c))
      ensures users == old(users) && packages == old(packages) && bookings == old(bookings)
    {
      categories := Some(WithoutCategory(Items(categories), c));
    }

    /** The add-package button: `'p' + Date.now()` as id; a cancelled or
        empty name adds nothing, a price that is not a number is 0. */
    method AddPackage(name: string, price: Option<int>, stamp: string)
      modifies this
      ensures name == [] ==> packages == old(packages)
      ensures name != [] ==> packages == Some(Items(old(packages)) + [Package("p" + stamp, name, PriceOf(price))])
      ensures users == old(users) && categories == old(categories) && bookings == old(bookings)
    {
      if name == [] {
        return;
      }
      var packs := Items(packages);
      packs := packs + [Package("p" + stamp, name, PriceOf(price))];
      packages := Some(packs);
    }

    /** The delete button of a package. */
    method DeletePackage(id: string)
      modifies this
      ensures packages == Some(WithoutPackage(Items(old(packages)), id))
      ensures users == old(users) && categories == old(categories) && bookings == old(bookings)
    {
      packages := Some(WithoutPackage(Items(packages), id));
    }
  }
}
