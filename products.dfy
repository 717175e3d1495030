/**
 * The product catalogue of the product service: the `Product` entity, the JPA repository
 * holding it (a map from id to product) and `ProductService`'s CRUD operations over it.
 */
module Products {
  import opened Wrappers
  import opened JavaInt

  /** Id 0 is the id of a product that was never saved (a Java `int` field defaults to 0). */
  const UNSAVED: int := 0

  /**
   * A row of the product table. Every column but the id is a nullable Java object (`None`
   * is null): a request body that leaves a field out stores null. `price` is only ever
   * copied, never computed with; `quantity` is the stock, a Java `Integer`.
   */
  datatype Product = Product(
    id: int,
    name: Option<string>,
    description: Option<string>,
    price: Option<real>,
    quantity: Option<Int32>)

  datatype ProductError =
    | ProductNotFound(id: int)       // ProductNotFoundException(id)
    | RuntimeError(message: string)  // a plain RuntimeException

  /** The message of the exception `updateProduct` throws for an unknown id. */
  const UPDATE_NOT_FOUND: string := "Produit non trouvé"

  /** The product table. Generated ids start at 1 and grow; every row knows its own id. */
  class ProductRepository {
    var rows: map<int, Product>
    var nextId: int

    ghost predicate Valid()
      reads this
    {
      && nextId > UNSAVED
      && forall id | id in rows :: UNSAVED < id < nextId && rows[id].id == id
    }

    constructor ()
      ensures Valid() && rows == map[] && nextId == 1
    {
      rows := map[];
      nextId := 1;
    }

    /** `findById`: the stored product, if any. */
    function FindById(id: int): (r: Option<Product>)
      reads this
      ensures r.Some? <==> id in rows
      ensures r.Some? ==> r.value == rows[id]
    {
      if id in rows then Some(rows[id]) else None
    }

    /**
     * `save`: a product whose id is stored overwrites that row; any other product is
     * inserted under the next generated id. Returns what was stored.
     */
    method Save(p: Product) returns (saved: Product)
      requires Valid()
      modifies this
      ensures Valid()
      ensures p.id in old(rows) ==> saved == p && nextId == old(nextId)
      ensures p.id !in old(rows) ==> saved == p.(id := old(nextId)) && nextId == old(nextId) + 1
      ensures rows == old(rows)[saved.id := saved]
    {
      if p.id in rows {
        saved := p;
      } else {
        saved := p.(id := nextId);
        nextId := nextId + 1;
      }
      rows := rows[saved.id := saved];
    }

    /** `delete`: removes the row of a stored product. */
    method Delete(p: Product)
      requires Valid()
      modifies this
      ensures Valid()
      ensures rows == old(rows) - {p.id} && nextId == old(nextId)
    {
      rows := rows - {p.id};
    }
  }

  /** `ProductService`: CRUD over the product table. */
  class ProductService {
    const repo: ProductRepository

    constructor (repo: ProductRepository)
      ensures this.repo == repo
    {
      this.repo := repo;
    }

    /** `createProduct`: saves the product as given and returns what was saved. */
    method CreateProduct(product: Product) returns (saved: Product)
      requires repo.Valid()
      modifies repo
      ensures repo.Valid()
      ensures product.id in old(repo.rows) ==> saved == product && repo.nextId == old(repo.nextId)
      ensures product.id !in old(repo.rows) ==> saved == product.(id := old(repo.nextId)) && repo.nextId == old(repo.nextId) + 1
      ensures repo.rows == old(repo.rows)[saved.id := saved]
      ensures saved.(id := product.id) == product
      ensures forall id | id in old(repo.rows) && id != saved.id :: id in repo.rows && repo.rows[id] == old(repo.rows[id])
      ensures repo.rows.Keys == old(repo.rows.Keys) + {saved.id}
    {
      saved := repo.Save(product);
    }

    /**
     * `updateProduct`: overwrites name, description, price and quantity of the stored
     * product `id`, keeping its id; fails without saving when `id` is unknown.
     */
    method UpdateProduct(product: Product, id: int) returns (r: Result<Product, ProductError>)
      requires repo.Valid()
      modifies repo
      ensures repo.Valid()
      ensures id !in old(repo.rows) ==> r == Failure(RuntimeError(UPDATE_NOT_FOUND)) && repo.rows == old(repo.rows)
      ensures id in old(repo.rows) ==>
        && r == Success(product.(id := id))
        && repo.rows == old(repo.rows)[id := product.(id := id)]
      ensures repo.nextId == old(repo.nextId)
    {
      var existing := repo.FindById(id);
      if existing.None? {
        return Failure(RuntimeError(UPDATE_NOT_FOUND));
      }
      var e := existing.value;
      e := e.(name := product.name);
      e := e.(description := product.description);
      e := e.(price := product.price);
      e := e.(quantity := product.quantity);
      var saved := repo.Save(e);
      r := Success(saved);
    }

    /** `deleteProduct`: removes exactly the product `id`, or fails when it is unknown. */
    method DeleteProduct(id: int) returns (r: Outcome<ProductError>)
      requires repo.Valid()
      modifies repo
      ensures repo.Valid()
      ensures id !in old(repo.rows) ==> r == Fail(ProductNotFound(id)) && repo.rows == old(repo.rows)
      ensures id in old(repo.rows) ==> r == Pass && repo.rows == old(repo.rows) - {id}
      ensures repo.nextId == old(repo.nextId)
    {
      var product := repo.FindById(id);
      if product.None? {
        return Fail(ProductNotFound(id));
      }
      repo.Delete(product.value);
      r := Pass;
    }

    /** `getProductById`: the stored product, or ProductNotFoundException. */
    function GetProductById(id: int): (r: Result<Product, ProductError>)
      reads repo
      ensures r.Success? <==> id in repo.rows
      ensures r.Success? ==> r.value == repo.rows[id]
      ensures r.Failure? ==> r.error == ProductNotFound(id)
    {
      match repo.FindById(id)
      case Some(p) => Success(p)
      case None => Failure(ProductNotFound(id))
    }
  }
}
