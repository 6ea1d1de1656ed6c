/**
 * The persisted records (entities) and the records the services hand out
 * (DTOs), with the field-by-field copies that stand in for ModelMapper's
 * reflective mapping.
 */
module Entities {

  import opened Wrappers

  /** A `java.util.Date`, as the milliseconds it holds. */
  datatype Timestamp = Timestamp(millis: int)

  /** A `Double` price, as its IEEE-754 bit pattern: the services only copy it. */
  datatype Price = Price(bits: bv64)

  datatype Role = Role(roleId: int, roleName: string)

  datatype User = User(
    id: string,
    name: string,
    email: string,
    password: string,
    gender: string,
    about: string,
    image: string,
    roles: set<Role>)

  datatype UserDto = UserDto(
    userId: string,
    name: string,
    email: string,
    password: string,
    about: string,
    gender: string,
    image: string)

  datatype Category = Category(
    id: string,
    title: string,
    description: string,
    coverImage: string,
    createdBy: string,
    updatedBy: string)

  datatype CategoryDto = CategoryDto(
    id: string,
    title: string,
    description: string,
    coverImage: string,
    createdBy: string,
    updatedBy: string)

  /** A product refers to its category by the category's id (the foreign key `fk_category_id`). */
  datatype Product = Product(
    id: string,
    title: string,
    description: string,
    image: string,
    price: Price,
    discount: int,
    quantity: int,
    live: bool,
    stock: bool,
    category: Option<string>,
    createdBy: string,
    updatedBy: string,
    createdAt: Option<Timestamp>,
    updatedAt: Option<Timestamp>)

  datatype ProductDto = ProductDto(
    id: string,
    title: string,
    description: string,
    image: string,
    price: Price,
    discount: int,
    quantity: int,
    live: bool,
    stock: bool,
    category: Option<CategoryDto>,
    createdBy: string,
    updatedBy: string,
    createdAt: Option<Timestamp>,
    updatedAt: Option<Timestamp>)

  // ---------------------------------------------------------------------------
  // Users: `userId` on the DTO is `id` on the entity; the DTO carries no roles.

  function UserToDto(u: User): (d: UserDto)
    ensures d.userId == u.id && d.name == u.name && d.email == u.email
  {
    UserDto(u.id, u.name, u.email, u.password, u.about, u.gender, u.image)
  }

  /** A DTO becomes a user with no roles, and mapping that user back gives the DTO again. */
  function UserFromDto(d: UserDto): (u: User)
    ensures u.roles == {}
    ensures UserToDto(u) == d
  {
    User(d.userId, d.name, d.email, d.password, d.gender, d.about, d.image, {})
  }

  /** Mapping a user to its DTO and back loses exactly the roles. */
  lemma UserRoundTrip(u: User)
    ensures UserFromDto(UserToDto(u)) == u.(roles := {})
  {
  }

  // ---------------------------------------------------------------------------
  // Categories: the two records have the same fields.

  function CategoryToDto(c: Category): (d: CategoryDto)
    ensures d.id == c.id && d.title == c.title
  {
    CategoryDto(c.id, c.title, c.description, c.coverImage, c.createdBy, c.updatedBy)
  }

  function CategoryFromDto(d: CategoryDto): (c: Category)
    ensures CategoryToDto(c) == d
  {
    Category(d.id, d.title, d.description, d.coverImage, d.createdBy, d.updatedBy)
  }

  lemma CategoryRoundTrip(c: Category)
    ensures CategoryFromDto(CategoryToDto(c)) == c
  {
  }

  // ---------------------------------------------------------------------------
  // Products: the DTO embeds the category's DTO, the entity its id.

  /** The DTO of the category a product refers to, looked up in the category table. */
  function CategoryDtoOf(ref: Option<string>, categories: map<string, Category>): (r: Option<CategoryDto>)
    ensures r.Some? <==> ref.Some? && ref.value in categories
    ensures r.Some? ==> r.value == CategoryToDto(categories[ref.value])
  {
    if ref.Some? && ref.value in categories then Some(CategoryToDto(categories[ref.value])) else None
  }

  function ProductToDto(p: Product, categories: map<string, Category>): (d: ProductDto)
    ensures d.id == p.id && d.title == p.title && d.live == p.live
    ensures d.category == CategoryDtoOf(p.category, categories)
  {
    ProductDto(p.id, p.title, p.description, p.image, p.price, p.discount, p.quantity, p.live, p.stock,
               CategoryDtoOf(p.category, categories), p.createdBy, p.updatedBy, p.createdAt, p.updatedAt)
  }

  function ProductFromDto(d: ProductDto): (p: Product)
    ensures p.category == if d.category.Some? then Some(d.category.value.id) else None
  {
    Product(d.id, d.title, d.description, d.image, d.price, d.discount, d.quantity, d.live, d.stock,
            if d.category.Some? then Some(d.category.value.id) else None,
            d.createdBy, d.updatedBy, d.createdAt, d.updatedAt)
  }

  /** Every category is filed under its own id. */
  ghost predicate KeyedById(categories: map<string, Category>)
  {
    forall id :: id in categories ==> categories[id].id == id
  }

  /**
   * A product survives the trip to its DTO and back whenever the category it
   * refers to, if any, is in the table.
   */
  lemma ProductRoundTrip(p: Product, categories: map<string, Category>)
    requires KeyedById(categories)
    requires p.category.Some? ==> p.category.value in categories
    ensures ProductFromDto(ProductToDto(p, categories)) == p
  {
  }
}
