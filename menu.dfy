/**
 * The restaurant's menu: a fixed list of items, each with an id, a name, a
 * price in rupees and an image address. The screen never changes it.
 */
module Menu {

  datatype MenuItem = MenuItem(id: string, name: string, price: int, imageUrl: string)

  const Dosa := MenuItem("1", "Dosa", 40, "https://picsum.photos/id/237/100/100")
  const Chappathi := MenuItem("2", "Chappathi", 15, "https://picsum.photos/id/238/100/100")
  const MasalaDosa := MenuItem("3", "Masala Dosa", 60, "https://picsum.photos/id/239/100/100")
  const MealsVeg := MenuItem("4", "Meals (Veg)", 100, "https://picsum.photos/id/240/100/100")
  const PuttuKadala := MenuItem("5", "Puttu & Kadala", 50, "https://picsum.photos/id/241/100/100")
  const AppamStew := MenuItem("6", "Appam & Stew", 70, "https://picsum.photos/id/242/100/100")
  const BiryaniChicken := MenuItem("7", "Biryani (Chicken)", 150, "https://picsum.photos/id/243/100/100")

  /** The seven dishes the screen offers, in display order. */
  const Catalog: seq<MenuItem> :=
    [Dosa, Chappathi, MasalaDosa, MealsVeg, PuttuKadala, AppamStew, BiryaniChicken]

  predicate UniqueIds(items: seq<MenuItem>) {
    forall i, j :: 0 <= i < j < |items| ==> items[i].id != items[j].id
  }

  predicate PositivePrices(items: seq<MenuItem>) {
    forall i :: 0 <= i < |items| ==> items[i].price > 0
  }

  /** Every id names one dish and every dish costs something. */
  lemma CatalogWellFormed()
    ensures UniqueIds(Catalog) && PositivePrices(Catalog)
  {
  }

  /** The catalog holds exactly the seven dishes. */
  lemma {:induction false} CatalogMembers(item: MenuItem)
    requires item in Catalog
    ensures || item == Dosa || item == Chappathi || item == MasalaDosa || item == MealsVeg
            || item == PuttuKadala || item == AppamStew || item == BiryaniChicken
  {
  }

  /** Every dish on the menu costs something. */
  lemma {:induction false} CatalogPrice(item: MenuItem)
    requires item in Catalog
    ensures item.price > 0
  {
    CatalogWellFormed();
    var k :| 0 <= k < |Catalog| && Catalog[k] == item;
  }

  /** Two menu items with the same id are the same item. */
  lemma {:induction false} SameIdSameItem(a: MenuItem, b: MenuItem)
    requires a in Catalog && b in Catalog && a.id == b.id
    ensures a == b
  {
    CatalogWellFormed();
  }
}
