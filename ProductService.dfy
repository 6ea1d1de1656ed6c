/**
 * `ProductServiceImpl`: create, update, delete and look up products, file
 * them under a category, and list them a page at a time.
 */
module ProductService {

  import opened Wrappers
  import opened JavaLang
  import opened Entities
  import opened Exceptions
  import opened AppConstants
  import opened PageHelper
  import opened Listing
  import opened PageStorage
  import opened Persistence

  // ---------------------------------------------------------------------------
  // The records the operations store

  /**
   * The product `createProduct` saves: the DTO's fields under the generated
   * id, stamped with the creation time `now`.
   */
  function NewProduct(dto: ProductDto, productId: string, now: Timestamp): (p: Product)
    ensures p.id == productId && p.createdAt == Some(now)
    ensures p.category == if dto.category.Some? then Some(dto.category.value.id) else None
    ensures forall categories :: ProductToDto(p, categories).(category := dto.category)
                                   == dto.(id := productId, createdAt := Some(now))
  {
    ProductFromDto(dto).(id := productId, createdAt := Some(now))
  }

  /**
   * The product `createProductWithCategory` saves: the DTO's fields under
   * the generated id, filed under `categoryId`; the creation time is
   * whatever the DTO carried.
   */
  function NewProductInCategory(dto: ProductDto, productId: string, categoryId: string): (p: Product)
    ensures p.id == productId && p.category == Some(categoryId) && p.createdAt == dto.createdAt
    ensures forall categories :: categoryId in categories ==>
              ProductToDto(p, categories) == dto.(id := productId, category := Some(CategoryToDto(categories[categoryId])))
  {
    ProductFromDto(dto).(id := productId, category := Some(categoryId))
  }

  /**
   * The product `updateProduct` saves: title, description, image, price,
   * discount, quantity, live, stock and `updatedBy` from the DTO; the id,
   * the category, `createdBy` and both timestamps kept.
   */
  function UpdatedProduct(p: Product, dto: ProductDto): (r: Product)
    ensures r == ProductFromDto(dto).(id := p.id, category := p.category, createdBy := p.createdBy,
                                      createdAt := p.createdAt, updatedAt := p.updatedAt)
  {
    p.(title := dto.title, description := dto.description, image := dto.image, price := dto.price,
       discount := dto.discount, quantity := dto.quantity, live := dto.live, stock := dto.stock,
       updatedBy := dto.updatedBy)
  }

  /** An update keeps what identifies and files the product. */
  lemma UpdateKeepsIdentity(p: Product, dto: ProductDto)
    ensures var r := UpdatedProduct(p, dto);
            r.id == p.id && r.category == p.category && r.createdBy == p.createdBy
            && r.createdAt == p.createdAt && r.updatedAt == p.updatedAt
  {
  }

  /**
   * The product `assignCategoryToProduct` saves: only the category changes,
   * and the answered DTO embeds the assigned category's DTO.
   */
  function AssignedCategory(p: Product, categoryId: string): (r: Product)
    ensures r.category == Some(categoryId)
    ensures r.(category := p.category) == p
  {
    p.(category := Some(categoryId))
  }

  /** A product filed under a stored category answers that category's DTO. */
  lemma FiledProductShowsCategory(p: Product, categoryId: string, categories: map<string, Category>)
    requires categoryId in categories
    ensures ProductToDto(AssignedCategory(p, categoryId), categories).category
              == Some(CategoryToDto(categories[categoryId]))
  {
  }

  // ---------------------------------------------------------------------------
  // Listings: the DTO of each product embeds its category's DTO.

  /** The listing's mapping from a product to its DTO, against the category table. */
  function ToDtoIn(categories: map<string, Category>): Product -> ProductDto
  {
    (p: Product) => ProductToDto(p, categories)
  }

  /** `getAllProducts`: one page of every product, in the requested order. */
  function GetAllProducts(p: PageParams, categories: map<string, Category>, findAll: Storage<Product>)
    : (r: Result<PageResponse<ProductDto>, Exception>)
    ensures r.Failure? ==> r.error == IllegalArguments(PageErrorMsg)
    ensures r.Success? <==> PageRequestOf(p).Some? && findAll(PageRequestOf(p).value).Some?
    ensures r.Success? ==> var page := findAll(PageRequestOf(p).value).value;
                           && |r.value.content| == |page.content|
                           && (forall i :: 0 <= i < |page.content| ==>
                                 r.value.content[i] == ProductToDto(page.content[i], categories))
                           && r.value.totalElements == page.totalElements && r.value.lastPage == page.isLast
                           && r.value.pageSize == page.size && r.value.totalPages == page.totalPages
                           && r.value.pageNumber == Wrap32(page.number + 1)
  {
    var r := ListPage(p, findAll, ToDtoIn(categories));
    if r.Success? then ListPageWrapsStoragePage(p, findAll, ToDtoIn(categories)); r else r
  }

  /** The repository's `findByCategory(category, pageable)`, bound to one category. */
  function CategoryQuery(category: Category, find: (Category, PageQuery) -> Option<StoragePage<Product>>): Storage<Product>
  {
    (q: PageQuery) => find(category, q)
  }

  /**
   * `getProductsByCategory`: one page of the products of the category. The
   * category lookup sits inside the same `try` as the paging, and the
   * not-found exception is a `RuntimeException`, so an unknown category
   * comes out as the page error too.
   */
  function GetProductsByCategory(categoryId: string, p: PageParams, categories: map<string, Category>,
                                 find: (Category, PageQuery) -> Option<StoragePage<Product>>)
    : (r: Result<PageResponse<ProductDto>, Exception>)
    ensures r.Failure? ==> r.error == IllegalArguments(PageErrorMsg)
    ensures r.Success? <==> PageRequestOf(p).Some? && categoryId in categories
                            && find(categories[categoryId], PageRequestOf(p).value).Some?
    ensures r.Success? ==> var page := find(categories[categoryId], PageRequestOf(p).value).value;
                           && |r.value.content| == |page.content|
                           && (forall i :: 0 <= i < |page.content| ==> r.value.content[i] == ProductToDto(page.content[i], categories))
                           && r.value.totalElements == page.totalElements && r.value.lastPage == page.isLast
                           && r.value.pageSize == page.size && r.value.totalPages == page.totalPages
                           && r.value.pageNumber == Wrap32(page.number + 1)
  {
    if PageRequestOf(p).None? || categoryId !in categories then Failure(IllegalArguments(PageErrorMsg))
    else
      var r := ListPage(p, CategoryQuery(categories[categoryId], find), ToDtoIn(categories));
      if r.Success? then ListPageWrapsStoragePage(p, CategoryQuery(categories[categoryId], find), ToDtoIn(categories)); r
      else r
  }

  /** An unknown category is reported as the page error, not as not-found. */
  lemma UnknownCategoryIsPageError(categoryId: string, p: PageParams, categories: map<string, Category>,
                                   find: (Category, PageQuery) -> Option<StoragePage<Product>>)
    requires categoryId !in categories
    ensures GetProductsByCategory(categoryId, p, categories, find) == Failure(IllegalArguments(PageErrorMsg))
  {
  }

  /**
   * When the repository's query keeps only the products filed under the
   * category, every product listed embeds that category's DTO.
   */
  lemma ProductsByCategoryOnlyThatCategory(categoryId: string, p: PageParams, categories: map<string, Category>,
                                           find: (Category, PageQuery) -> Option<StoragePage<Product>>)
    requires categoryId in categories
    requires OnlyMatching(CategoryQuery(categories[categoryId], find), (x: Product) => x.category == Some(categoryId))
    ensures var r := GetProductsByCategory(categoryId, p, categories, find);
            r.Success? ==> forall i :: 0 <= i < |r.value.content| ==>
                             r.value.content[i].category == Some(CategoryToDto(categories[categoryId]))
  {
    var dto := Some(CategoryToDto(categories[categoryId]));
    ListedOnlyMatching(p, CategoryQuery(categories[categoryId], find), ToDtoIn(categories),
                       (x: Product) => x.category == Some(categoryId), (d: ProductDto) => d.category == dto);
  }

  /** The repository's `findByTitleContaining(subtitle, pageable)`, bound to one subtitle. */
  function TitleQuery(subTitle: string, find: (string, PageQuery) -> Option<StoragePage<Product>>): Storage<Product>
  {
    (q: PageQuery) => find(subTitle, q)
  }

  /** `getByTitleContaining`: one page of the products whose title contains `subTitle`. */
  function GetByTitleContaining(subTitle: string, p: PageParams, categories: map<string, Category>,
                                find: (string, PageQuery) -> Option<StoragePage<Product>>)
    : (r: Result<PageResponse<ProductDto>, Exception>)
    ensures r.Failure? ==> r.error == IllegalArguments(PageErrorMsg)
    ensures r.Success? <==> PageRequestOf(p).Some? && find(subTitle, PageRequestOf(p).value).Some?
    ensures r.Success? ==> var page := find(subTitle, PageRequestOf(p).value).value;
                           && |r.value.content| == |page.content|
                           && (forall i :: 0 <= i < |page.content| ==> r.value.content[i] == ProductToDto(page.content[i], categories))
                           && r.value.totalElements == page.totalElements && r.value.lastPage == page.isLast
                           && r.value.pageSize == page.size && r.value.totalPages == page.totalPages
                           && r.value.pageNumber == Wrap32(page.number + 1)
  {
    var r := ListPage(p, TitleQuery(subTitle, find), ToDtoIn(categories));
    if r.Success? then ListPageWrapsStoragePage(p, TitleQuery(subTitle, find), ToDtoIn(categories)); r else r
  }

  /** When the query keeps only matching titles, every product listed has a title containing `subTitle`. */
  lemma TitleContainingOnlyMatches(subTitle: string, p: PageParams, categories: map<string, Category>,
                                   find: (string, PageQuery) -> Option<StoragePage<Product>>)
    requires OnlyMatching(TitleQuery(subTitle, find), (x: Product) => Contains(x.title, subTitle))
    ensures var r := GetByTitleContaining(subTitle, p, categories, find);
            r.Success? ==> forall i :: 0 <= i < |r.value.content| ==> Contains(r.value.content[i].title, subTitle)
  {
    ListedOnlyMatching(p, TitleQuery(subTitle, find), ToDtoIn(categories),
                       (x: Product) => Contains(x.title, subTitle), (d: ProductDto) => Contains(d.title, subTitle));
  }

  /** `getByLiveTrue`: one page of the products that are live. */
  function GetByLiveTrue(p: PageParams, categories: map<string, Category>, findByLiveTrue: Storage<Product>)
    : (r: Result<PageResponse<ProductDto>, Exception>)
    ensures r.Failure? ==> r.error == IllegalArguments(PageErrorMsg)
    ensures r.Success? <==> PageRequestOf(p).Some? && findByLiveTrue(PageRequestOf(p).value).Some?
    ensures r.Success? ==> var page := findByLiveTrue(PageRequestOf(p).value).value;
                           && |r.value.content| == |page.content|
                           && (forall i :: 0 <= i < |page.content| ==> r.value.content[i] == ProductToDto(page.content[i], categories))
                           && r.value.totalElements == page.totalElements && r.value.lastPage == page.isLast
                           && r.value.pageSize == page.size && r.value.totalPages == page.totalPages
                           && r.value.pageNumber == Wrap32(page.number + 1)
  {
    var r := ListPage(p, findByLiveTrue, ToDtoIn(categories));
    if r.Success? then ListPageWrapsStoragePage(p, findByLiveTrue, ToDtoIn(categories)); r else r
  }

  /** When the query keeps only live products, every product listed is live. */
  lemma LiveTrueOnlyLive(p: PageParams, categories: map<string, Category>, findByLiveTrue: Storage<Product>)
    requires OnlyMatching(findByLiveTrue, (x: Product) => x.live)
    ensures var r := GetByLiveTrue(p, categories, findByLiveTrue);
            r.Success? ==> forall i :: 0 <= i < |r.value.content| ==> r.value.content[i].live
  {
    ListedOnlyMatching(p, findByLiveTrue, ToDtoIn(categories), (x: Product) => x.live, (d: ProductDto) => d.live);
  }

  // ---------------------------------------------------------------------------
  // What the listings make of a repository that answers one unpaged page

  /**
   * A repository answering the unpaged page of three products: page 1 of 5
   * of a known category holds all three, counts three, and is the last.
   */
  lemma ThreeProductsOfCategory(categoryId: string, categories: map<string, Category>, products: seq<Product>)
    requires categoryId in categories && |products| == 3
    ensures var r := GetProductsByCategory(categoryId, PageParams(1, 5, "title", "asc"), categories,
                                           (c: Category, q: PageQuery) => Some(UnpagedPage(products)));
            r.Success? && |r.value.content| == 3 && r.value.totalElements == 3 && r.value.lastPage
  {
    var p := PageParams(1, 5, "title", "asc");
    var find := (c: Category, q: PageQuery) => Some(UnpagedPage(products));
    assert !IsWhitespace(p.sortBy[0]);
    PageRequestValidity(p);
    ListPageWrapsStoragePage(p, CategoryQuery(categories[categoryId], find), ToDtoIn(categories));
  }

  /**
   * The envelope holds whatever the repository answers: with a page size of
   * one, an answer of three products lists three.
   */
  lemma ContentComesFromStorage(subTitle: string, sortDir: string, categories: map<string, Category>, products: seq<Product>)
    requires |products| == 3
    ensures var r := GetByTitleContaining(subTitle, PageParams(1, 1, "title", sortDir), categories,
                                          (s: string, q: PageQuery) => Some(UnpagedPage(products)));
            r.Success? && |r.value.content| == 3
  {
    var p := PageParams(1, 1, "title", sortDir);
    var find := (s: string, q: PageQuery) => Some(UnpagedPage(products));
    assert !IsWhitespace(p.sortBy[0]);
    PageRequestValidity(p);
    ListPageWrapsStoragePage(p, TitleQuery(subTitle, find), ToDtoIn(categories));
  }

  /**
   * A sort direction that is not "asc" (here "ace") still lists: it asks
   * for a descending page, and the live listing holds what the repository
   * answers.
   */
  lemma MisspeltDirectionStillLists(categories: map<string, Category>, products: seq<Product>)
    requires |products| == 3
    ensures PageRequestOf(PageParams(1, 1, "rirle", "ace")).Some?
            && PageRequestOf(PageParams(1, 1, "rirle", "ace")).value.direction == Descending
    ensures var r := GetByLiveTrue(PageParams(1, 1, "rirle", "ace"), categories, (q: PageQuery) => Some(UnpagedPage(products)));
            r.Success? && |r.value.content| == 3
  {
    var p := PageParams(1, 1, "rirle", "ace");
    assert !IsWhitespace(p.sortBy[0]);
    PageRequestValidity(p);
    DirectionExamples();
    ListPageWrapsStoragePage(p, (q: PageQuery) => Some(UnpagedPage(products)), ToDtoIn(categories));
  }

  // ---------------------------------------------------------------------------
  // The service

  class ProductServiceImpl {
    const db: Database

    constructor(db: Database)
      ensures this.db == db
    {
      this.db := db;
    }

    /**
     * `createProduct`: saves the DTO under the generated id `productId`,
     * created at `now`, and answers the saved product.
     */
    method CreateProduct(dto: ProductDto, productId: string, now: Timestamp) returns (r: ProductDto)
      requires db.Valid()
      modifies db`products
      ensures db.Valid()
      ensures db.products == old(db.products)[productId := NewProduct(dto, productId, now)]
      ensures r == ProductToDto(NewProduct(dto, productId, now), db.categories)
    {
      var p := NewProduct(dto, productId, now);
      db.products := db.products[productId := p];
      r := ProductToDto(p, db.categories);
    }

    /**
     * `createProductWithCategory`: saves the DTO under the generated id,
     * filed under the category; an unknown category fails with not-found
     * and saves nothing.
     */
    method CreateProductWithCategory(dto: ProductDto, categoryId: string, productId: string)
      returns (r: Result<ProductDto, Exception>)
      requires db.Valid()
      modifies db`products
      ensures db.Valid()
      ensures categoryId !in db.categories ==>
                r == Failure(ResourceNotFound("Category", "categoryId", categoryId)) && db.products == old(db.products)
      ensures categoryId in db.categories ==>
                var p := NewProductInCategory(dto, productId, categoryId);
                db.products == old(db.products)[productId := p]
                && r == Success(ProductToDto(p, db.categories))
                && r.value.category == Some(CategoryToDto(db.categories[categoryId]))
    {
      if categoryId !in db.categories {
        return Failure(ResourceNotFound("Category", "categoryId", categoryId));
      }
      var p := NewProductInCategory(dto, productId, categoryId);
      db.products := db.products[productId := p];
      r := Success(ProductToDto(p, db.categories));
    }

    /**
     * `assignCategoryToProduct`: files the product under the category,
     * changing nothing else. The category is looked up first, so when both
     * are missing the failure names the category.
     */
    method AssignCategoryToProduct(categoryId: string, productId: string) returns (r: Result<ProductDto, Exception>)
      requires db.Valid()
      modifies db`products
      ensures db.Valid()
      ensures categoryId !in db.categories ==>
                r == Failure(ResourceNotFound("Category", "categoryId", categoryId)) && db.products == old(db.products)
      ensures categoryId in db.categories && productId !in old(db.products) ==>
                r == Failure(ResourceNotFound("Product", "productId", productId)) && db.products == old(db.products)
      ensures categoryId in db.categories && productId in old(db.products) ==>
                var p := AssignedCategory(old(db.products)[productId], categoryId);
                db.products == old(db.products)[productId := p] && r == Success(ProductToDto(p, db.categories))
    {
      if categoryId !in db.categories {
        return Failure(ResourceNotFound("Category", "categoryId", categoryId));
      }
      if productId !in db.products {
        return Failure(ResourceNotFound("Product", "productId", productId));
      }
      var p := AssignedCategory(db.products[productId], categoryId);
      db.products := db.products[productId := p];
      r := Success(ProductToDto(p, db.categories));
    }

    /**
     * `updateProduct`: overwrites the nine editable fields and answers the
     * result; an unknown id fails with not-found and changes nothing.
     */
    method UpdateProduct(dto: ProductDto, productId: string) returns (r: Result<ProductDto, Exception>)
      requires db.Valid()
      modifies db`products
      ensures db.Valid()
      ensures productId !in old(db.products) ==>
                r == Failure(ResourceNotFound("Product", "productId", productId)) && db.products == old(db.products)
      ensures productId in old(db.products) ==>
                var p := UpdatedProduct(old(db.products)[productId], dto);
                db.products == old(db.products)[productId := p] && r == Success(ProductToDto(p, db.categories))
    {
      if productId !in db.products {
        return Failure(ResourceNotFound("Product", "productId", productId));
      }
      var p := UpdatedProduct(db.products[productId], dto);
      db.products := db.products[productId := p];
      r := Success(ProductToDto(p, db.categories));
    }

    /** `deleteProduct`: removes that product and nothing else; an unknown id fails with not-found. */
    method DeleteProduct(productId: string) returns (r: Result<(), Exception>)
      requires db.Valid()
      modifies db`products
      ensures db.Valid()
      ensures r.Failure? <==> productId !in old(db.products)
      ensures r.Failure? ==> r.error == ResourceNotFound("Product", "productId", productId) && db.products == old(db.products)
      ensures r.Success? ==> db.products == old(db.products) - {productId}
    {
      if productId !in db.products {
        return Failure(ResourceNotFound("Product", "productId", productId));
      }
      db.products := db.products - {productId};
      r := Success(());
    }

    /** `getProductById`: the stored product's DTO, or not-found. */
    method GetProductById(productId: string) returns (r: Result<ProductDto, Exception>)
      requires db.Valid()
      ensures r.Success? <==> productId in db.products
      ensures r.Success? ==> r.value.id == productId && r.value == ProductToDto(db.products[productId], db.categories)
      ensures r.Failure? ==> r.error == ResourceNotFound("Product", "productId", productId)
    {
      if productId !in db.products {
        return Failure(ResourceNotFound("Product", "productId", productId));
      }
      r := Success(ProductToDto(db.products[productId], db.categories));
    }
  }
}
