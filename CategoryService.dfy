/**
 * `CategoryServiceImpl`: create, update, delete and look up categories,
 * and list them a page at a time.
 */
module CategoryService {

  import opened Wrappers
  import opened JavaLang
  import opened Entities
  import opened Exceptions
  import opened AppConstants
  import opened PageHelper
  import opened Listing
  import opened Persistence

  // ---------------------------------------------------------------------------
  // The records the operations store

  /**
   * The category `createCategory` saves: the DTO's fields under the
   * generated id, whatever id the DTO carried.
   */
  function NewCategory(dto: CategoryDto, categoryId: string): (c: Category)
    ensures c.id == categoryId
    ensures CategoryToDto(c) == dto.(id := categoryId)
  {
    CategoryFromDto(dto).(id := categoryId)
  }

  /**
   * The category `updateCategory` saves: title, description, cover image
   * and `updatedBy` from the DTO; the id and `createdBy` kept.
   */
  function UpdatedCategory(c: Category, dto: CategoryDto): (r: Category)
    ensures r.id == c.id && r.createdBy == c.createdBy
    ensures CategoryToDto(r) == dto.(id := c.id, createdBy := c.createdBy)
  {
    c.(title := dto.title, description := dto.description, coverImage := dto.coverImage, updatedBy := dto.updatedBy)
  }

  /** Only the four editable fields of the DTO reach the stored category. */
  lemma UpdateReadsOnlyEditableFields(c: Category, dto: CategoryDto, other: CategoryDto)
    requires dto.title == other.title && dto.description == other.description
    requires dto.coverImage == other.coverImage && dto.updatedBy == other.updatedBy
    ensures UpdatedCategory(c, dto) == UpdatedCategory(c, other)
  {
    var r, s := UpdatedCategory(c, dto), UpdatedCategory(c, other);
    CategoryRoundTrip(r);
    CategoryRoundTrip(s);
  }

  /** Every product refers to no category or to a category in the table. */
  ghost predicate ReferencesResolve(categories: map<string, Category>, products: map<string, Product>)
  {
    forall id :: id in products && products[id].category.Some? ==> products[id].category.value in categories
  }

  /**
   * The product table after a category is deleted: `Category.products` is
   * mapped with `CascadeType.ALL`, so the products of that category go
   * with it; every other product stays as it was.
   */
  function WithoutCategory(products: map<string, Product>, categoryId: string): (r: map<string, Product>)
    ensures forall id :: id in r <==> id in products && products[id].category != Some(categoryId)
    ensures forall id :: id in r ==> r[id] == products[id]
  {
    map id | id in products && products[id].category != Some(categoryId) :: products[id]
  }

  /** Deleting a category with its products leaves no product referring to a missing category. */
  lemma DeleteCategoryKeepsReferences(categories: map<string, Category>, products: map<string, Product>, categoryId: string)
    requires ReferencesResolve(categories, products)
    ensures ReferencesResolve(categories - {categoryId}, WithoutCategory(products, categoryId))
  {
    var remaining := WithoutCategory(products, categoryId);
    forall id | id in remaining && remaining[id].category.Some?
      ensures remaining[id].category.value in categories - {categoryId}
    {
      assert remaining[id] == products[id];
    }
  }

  // ---------------------------------------------------------------------------
  // Listings

  /** `getAllCategories`: one page of every category, in the requested order. */
  function GetAllCategories(p: PageParams, findAll: Storage<Category>): (r: Result<PageResponse<CategoryDto>, Exception>)
    ensures r.Failure? ==> r.error == IllegalArguments(PageErrorMsg)
    ensures r.Success? <==> PageRequestOf(p).Some? && findAll(PageRequestOf(p).value).Some?
    ensures r.Success? ==> var page := findAll(PageRequestOf(p).value).value;
                           && |r.value.content| == |page.content|
                           && (forall i :: 0 <= i < |page.content| ==> r.value.content[i] == CategoryToDto(page.content[i]))
                           && r.value.totalElements == page.totalElements && r.value.lastPage == page.isLast
                           && r.value.pageSize == page.size && r.value.totalPages == page.totalPages
                           && r.value.pageNumber == Wrap32(page.number + 1)
  {
    var r := ListPage(p, findAll, CategoryToDto);
    if r.Success? then ListPageWrapsStoragePage(p, findAll, CategoryToDto); r else r
  }

  /** The repository's `findByTitleContaining(keyword, pageable)`, bound to one keyword. */
  function TitleQuery(keyword: string, find: (string, PageQuery) -> Option<StoragePage<Category>>): Storage<Category>
  {
    (q: PageQuery) => find(keyword, q)
  }

  /** `searchCategoryByTitleKeyword`: one page of the categories whose title contains `keyword`. */
  function SearchCategoryByTitleKeyword(keyword: string, p: PageParams,
                                        find: (string, PageQuery) -> Option<StoragePage<Category>>)
    : (r: Result<PageResponse<CategoryDto>, Exception>)
    ensures r.Failure? ==> r.error == IllegalArguments(PageErrorMsg)
    ensures r.Success? <==> PageRequestOf(p).Some? && find(keyword, PageRequestOf(p).value).Some?
    ensures r.Success? ==> var page := find(keyword, PageRequestOf(p).value).value;
                           && |r.value.content| == |page.content|
                           && (forall i :: 0 <= i < |page.content| ==> r.value.content[i] == CategoryToDto(page.content[i]))
                           && r.value.totalElements == page.totalElements && r.value.lastPage == page.isLast
                           && r.value.pageSize == page.size && r.value.totalPages == page.totalPages
                           && r.value.pageNumber == Wrap32(page.number + 1)
  {
    var r := ListPage(p, TitleQuery(keyword, find), CategoryToDto);
    if r.Success? then ListPageWrapsStoragePage(p, TitleQuery(keyword, find), CategoryToDto); r else r
  }

  /**
   * When the repository's query keeps only categories whose title contains
   * the keyword, every category listed has a title containing the keyword.
   */
  lemma SearchOnlyMatches(keyword: string, p: PageParams, find: (string, PageQuery) -> Option<StoragePage<Category>>)
    requires OnlyMatching(TitleQuery(keyword, find), (c: Category) => Contains(c.title, keyword))
    ensures var r := SearchCategoryByTitleKeyword(keyword, p, find);
            r.Success? ==> forall i :: 0 <= i < |r.value.content| ==> Contains(r.value.content[i].title, keyword)
  {
    ListedOnlyMatching(p, TitleQuery(keyword, find), CategoryToDto,
                       (c: Category) => Contains(c.title, keyword), (d: CategoryDto) => Contains(d.title, keyword));
  }

  // ---------------------------------------------------------------------------
  // The service

  class CategoryServiceImpl {
    const db: Database

    constructor(db: Database)
      ensures this.db == db
    {
      this.db := db;
    }

    /** `createCategory`: saves the DTO under the generated id `randomId` and answers the saved category. */
    method CreateCategory(dto: CategoryDto, randomId: string) returns (r: CategoryDto)
      requires db.Valid()
      modifies db`categories
      ensures db.Valid()
      ensures db.categories == old(db.categories)[randomId := NewCategory(dto, randomId)]
      ensures r == dto.(id := randomId)
    {
      var c := NewCategory(dto, randomId);
      db.categories := db.categories[randomId := c];
      r := CategoryToDto(c);
    }

    /**
     * `updateCategory`: overwrites the editable fields and answers the
     * result; an unknown id fails with not-found and changes nothing.
     */
    method UpdateCategory(dto: CategoryDto, categoryId: string) returns (r: Result<CategoryDto, Exception>)
      requires db.Valid()
      modifies db`categories
      ensures db.Valid()
      ensures categoryId !in old(db.categories) ==>
                r == Failure(ResourceNotFound("Category", "categoryId", categoryId)) && db.categories == old(db.categories)
      ensures categoryId in old(db.categories) ==>
                var c := UpdatedCategory(old(db.categories)[categoryId], dto);
                r == Success(CategoryToDto(c)) && db.categories == old(db.categories)[categoryId := c]
    {
      if categoryId !in db.categories {
        return Failure(ResourceNotFound("Category", "categoryId", categoryId));
      }
      var c := UpdatedCategory(db.categories[categoryId], dto);
      db.categories := db.categories[categoryId := c];
      r := Success(CategoryToDto(c));
    }

    /**
     * `deleteCategory`: removes the category and, by the cascade, its
     * products; an unknown id fails with not-found and changes nothing.
     */
    method DeleteCategory(categoryId: string) returns (r: Result<(), Exception>)
      requires db.Valid()
      modifies db`categories, db`products
      ensures db.Valid()
      ensures r.Failure? <==> categoryId !in old(db.categories)
      ensures r.Failure? ==> r.error == ResourceNotFound("Category", "categoryId", categoryId)
                             && db.categories == old(db.categories) && db.products == old(db.products)
      ensures r.Success? ==> db.categories == old(db.categories) - {categoryId}
                             && db.products == WithoutCategory(old(db.products), categoryId)
    {
      if categoryId !in db.categories {
        return Failure(ResourceNotFound("Category", "categoryId", categoryId));
      }
      db.categories := db.categories - {categoryId};
      db.products := WithoutCategory(db.products, categoryId);
      r := Success(());
    }

    /** `getCategoryById`: the stored category's DTO, or not-found. */
    method GetCategoryById(categoryId: string) returns (r: Result<CategoryDto, Exception>)
      requires db.Valid()
      ensures r.Success? <==> categoryId in db.categories
      ensures r.Success? ==> r.value.id == categoryId && r.value == CategoryToDto(db.categories[categoryId])
      ensures r.Failure? ==> r.error == ResourceNotFound("Category", "categoryId", categoryId)
    {
      if categoryId !in db.categories {
        return Failure(ResourceNotFound("Category", "categoryId", categoryId));
      }
      r := Success(CategoryToDto(db.categories[categoryId]));
    }
  }
}
