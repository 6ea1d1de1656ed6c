# Electronic store services in Dafny

A Dafny model of the service layer of an electronic store (Spring Boot, Java). It covers:

- **Paged listings.** Every list and search method of the user, category and product services follows one rule:
  - the sort is ascending when `sortDir` equals "asc" ignoring case, and descending otherwise;
  - a `sortBy` with no character other than white space is refused by Spring's `Sort`;
  - the repository is asked for index `pageNumber - 1`;
  - `PageHelper.getPageResponse` wraps the answered page into a `PageResponse`, mapping the records to DTOs in order, reporting the index plus one, and copying size, totals and the last-page flag;
  - any runtime failure becomes `IllegalArgumentsException(PAGE_ERROR_MSG)`.
- **Record operations.** Create, update, delete and look-up of users, categories and products. These act on a `Database` class whose tables are id-keyed maps. The services reassign those maps, saying what changes and what does not.
- **Image names.** The file name `uploadImage` stores an image under, and the paths the upload writes to and `serveImage` reads from.

Modules:

| module | models |
|---|---|
| `Wrappers` | `Option` and `Result` |
| `JavaLang` | Java `int` wrap-around, `equalsIgnoreCase`, `trim`, `Character.isWhitespace` and Spring's `StringUtils.hasText`, `lastIndexOf`, `substring`, `contains` |
| `AppConstants`, `Exceptions` | the messages and the exceptions the services raise |
| `Entities` | entities, DTOs and the field copies ModelMapper performs |
| `PageHelper` | `StoragePage` (Spring's `Page`), `PageResponse`, `getPageResponse` |
| `Listing` | the paging rule, the storage contract, and what the listing promises |
| `PageStorage` | a reference repository (an ordered table sliced as `PageImpl` does) that meets the storage contract, with its page arithmetic |
| `Persistence` | the `Database` class |
| `UserService`, `CategoryService`, `ProductService`, `FileService` | the four service classes |

Each repository query is a parameter of type `Storage<E>`: a function from the query to the page it answers, or `None` when it raises. The listing lemmas say what follows when that storage answers the index it was asked for (`HonoursIndex`) and returns only records that pass its filter (`OnlyMatching`). `PageStorage` shows that both can be met.

## Model

| member | source | states |
|---|---|---|
| JavaLang.Wrap32 | src/main/java/com/mobicoolsoft/electronic/store/service/impl/UserServiceImpl.java:113 | the Java `int` result of an arithmetic step: congruent to the exact value modulo 2^32, and equal to it when it is in range |
| JavaLang.DecrementIncrement | src/main/java/com/mobicoolsoft/electronic/store/helper/PageHelper.java:31 | subtracting one and adding one back in `int` arithmetic returns every `int`, `Integer.MIN_VALUE` included |
| JavaLang.CaseVariants | src/main/java/com/mobicoolsoft/electronic/store/service/impl/UserServiceImpl.java:111 | exactly the characters `equalsIgnoreCase` matches to a given ASCII lower-case letter |
| JavaLang.EqualsIgnoreCase | src/main/java/com/mobicoolsoft/electronic/store/service/impl/UserServiceImpl.java:111 | `equalsIgnoreCase` holds exactly when the two strings fold, character by character through upper and then lower case, to the same string |
| JavaLang.EqualsIgnoreCaseIsEquivalence | src/main/java/com/mobicoolsoft/electronic/store/service/impl/FileServiceImpl.java:42 | matching ignoring case is reflexive, symmetric and transitive |
| JavaLang.Trim | src/main/java/com/mobicoolsoft/electronic/store/service/impl/UserServiceImpl.java:81-82 | `trim()` answers the piece `s[a..b]` of its input such that everything before `a` and from `b` on is a character up to U+0020, and the piece neither starts nor ends with one |
| JavaLang.TrimIsMaximal | src/main/java/com/mobicoolsoft/electronic/store/service/impl/UserServiceImpl.java:81-82 | any cut of the input that meets the trimming rule is the one `trim()` answers, so the result is determined by the input |
| JavaLang.TrimIdempotent | src/main/java/com/mobicoolsoft/electronic/store/service/impl/UserServiceImpl.java:81-82 | trimming a trimmed string changes nothing |
| JavaLang.LastIndexOf | src/main/java/com/mobicoolsoft/electronic/store/service/impl/FileServiceImpl.java:41 | `lastIndexOf` answers an index holding the character with none after it, and -1 exactly when the character is absent |
| JavaLang.Substring | src/main/java/com/mobicoolsoft/electronic/store/service/impl/FileServiceImpl.java:41 | `substring(begin)` is defined exactly for 0 <= begin <= length, and answers the suffix that completes the prefix to the whole string |
| PageHelper.MapAll | src/main/java/com/mobicoolsoft/electronic/store/helper/PageHelper.java:27-28 | the mapped list has the same length and holds the mapped element at every position, order kept |
| PageHelper.GetPageResponse | src/main/java/com/mobicoolsoft/electronic/store/helper/PageHelper.java:25-37 | the envelope holds the page content mapped in order, the page index plus one as page number, and size, totals and the last-page flag as the storage gave them |
| Listing.ListPage | src/main/java/com/mobicoolsoft/electronic/store/service/impl/UserServiceImpl.java:108-125 | a listing fails only with `IllegalArgumentsException(PAGE_ERROR_MSG)`, and succeeds exactly when the sort and page request can be built and the storage answers |
| Listing.AscendingExactlyForAsc | src/main/java/com/mobicoolsoft/electronic/store/service/impl/UserServiceImpl.java:111 | the sort is ascending exactly when `sortDir` is three characters matching "asc" ignoring case; everything else is descending |
| Listing.SortDirection | src/main/java/com/mobicoolsoft/electronic/store/service/impl/UserServiceImpl.java:111 | the sort is ascending exactly when `sortDir` folds to "asc", and descending for every other string |
| Listing.PageRequestOf | src/main/java/com/mobicoolsoft/electronic/store/service/impl/UserServiceImpl.java:111-113 | a request is built only with a sort property that has text, an index from 0 to `Integer.MAX_VALUE` and a positive size, and it carries the size and property it was given |
| Listing.DirectionExamples | src/main/java/com/mobicoolsoft/electronic/store/service/impl/UserServiceImpl.java:170 | "asc", "ASC", "Asc" and "aſc" sort ascending; "desc", "foo", "ace", "" and "asc " sort descending |
| Listing.PageRequestValidity | src/main/java/com/mobicoolsoft/electronic/store/service/impl/UserServiceImpl.java:111-113 | the request is valid exactly when the sort property has text, the page size is positive and the page number is at least one or `Integer.MIN_VALUE`; it asks for index page number minus one and carries the chosen direction |
| Listing.NonPositivePageIsRefused | src/main/java/com/mobicoolsoft/electronic/store/service/impl/UserServiceImpl.java:110-124 | a page number from `MIN_VALUE + 1` to 0, or a page size below one, gives the page error whatever the storage |
| Listing.BlankSortPropertyIsRefused | src/main/java/com/mobicoolsoft/electronic/store/service/impl/UserServiceImpl.java:111 | an empty or all-blank `sortBy` gives the page error before the storage is asked, whatever the storage |
| Listing.StorageFaultIsPageError | src/main/java/com/mobicoolsoft/electronic/store/service/impl/UserServiceImpl.java:115-124 | a storage that raises gives the page error, never a partial result |
| Listing.ListPageWrapsStoragePage | src/main/java/com/mobicoolsoft/electronic/store/service/impl/UserServiceImpl.java:115-120 | a successful listing is the storage page of the requested query wrapped: same records in the same order, mapped, counts and flag copied |
| Listing.PageNumberRoundTrip | src/main/java/com/mobicoolsoft/electronic/store/service/impl/UserServiceImpl.java:113-117 | when the storage answers the index it was asked for, the envelope reports the page number that was requested |
| Listing.MinIntPageNumberIsNotRefused | src/main/java/com/mobicoolsoft/electronic/store/service/impl/UserServiceImpl.java:113 | `Integer.MIN_VALUE` as page number is not refused: the storage is asked for index `MAX_VALUE` and the envelope reports `MIN_VALUE` |
| Listing.ListedOnlyMatching | src/main/java/com/mobicoolsoft/electronic/store/service/impl/UserServiceImpl.java:174-176 | when the storage only returns records passing the query filter, every listed DTO passes the corresponding test |
| PageStorage.FilterReverse | src/main/java/com/mobicoolsoft/electronic/store/service/impl/UserServiceImpl.java:111 | a descending query keeps the same records as an ascending one, in reverse order |
| PageStorage.SlicePage | src/main/java/com/mobicoolsoft/electronic/store/service/impl/UserServiceImpl.java:113-115 | the reference page of index i and size n holds exactly min(n, total - i*n) records (none past the end), the ones from offset i*n, counts every row, has ceil(total/n) pages and is last exactly when no page follows |
| PageStorage.UnpagedPage | src/test/java/com/mobicoolsoft/electronic/store/service/impl/ProductServiceImplTest.java:220 | an unpaged `PageImpl` holds all its records, has index 0, one page, and is the last |
| PageStorage.SliceStorageMeetsContract | src/main/java/com/mobicoolsoft/electronic/store/repository/ProductRepository.java:16-20 | the reference storage answers the requested index and only records passing its filter |
| PageStorage.UnknownSortFieldIsPageError | src/main/java/com/mobicoolsoft/electronic/store/service/impl/UserServiceImpl.java:111-124 | a `sortBy` naming no sortable property gives the page error |
| PageStorage.ListingOverSliceStorage | src/main/java/com/mobicoolsoft/electronic/store/service/impl/UserServiceImpl.java:108-125 | over the reference storage a valid request succeeds with a full page of `pageSize` records before the last page, the remainder on it and none past it, the requested page number, every match counted, ceil(total/size) pages, and last exactly when the page number reaches the page count |
| PageStorage.EmptyCollectionPage | src/main/java/com/mobicoolsoft/electronic/store/helper/PageHelper.java:30-35 | an empty collection lists as an empty last page with no elements and no pages |
| PageStorage.ThreeRecordsInPagesOfTwo | src/main/java/com/mobicoolsoft/electronic/store/helper/PageHelper.java:31-35 | three records in pages of two: page 1 holds two and is not last of two pages, page 2 holds one and is last |
| PageStorage.DescendingReversesSinglePage | src/main/java/com/mobicoolsoft/electronic/store/service/impl/UserServiceImpl.java:111 | when everything fits one page the descending page is the ascending one reversed |
| Entities.UserToDto | src/main/java/com/mobicoolsoft/electronic/store/dto/UserDto.java:17-32 | the user DTO carries the entity id as `userId` and the same name and email |
| Entities.UserFromDto | src/main/java/com/mobicoolsoft/electronic/store/dto/UserDto.java:17-32 | a DTO becomes a user with no roles, which maps back to the same DTO |
| Entities.UserRoundTrip | src/main/java/com/mobicoolsoft/electronic/store/dto/UserDto.java:17-32 | a user mapped to its DTO and back loses exactly its roles |
| Entities.CategoryToDto | src/main/java/com/mobicoolsoft/electronic/store/service/impl/CategoryServiceImpl.java:42 | the category DTO carries the same id and title |
| Entities.CategoryFromDto | src/main/java/com/mobicoolsoft/electronic/store/service/impl/CategoryServiceImpl.java:38 | a category DTO becomes a category that maps back to the same DTO |
| Entities.CategoryRoundTrip | src/main/java/com/mobicoolsoft/electronic/store/service/impl/CategoryServiceImpl.java:38-42 | a category survives the trip to its DTO and back |
| Entities.CategoryDtoOf | src/main/java/com/mobicoolsoft/electronic/store/dto/ProductDto.java:18-52 | a product's embedded category DTO is present exactly when its category is in the table, and is then that category's DTO |
| Entities.ProductToDto | src/main/java/com/mobicoolsoft/electronic/store/dto/ProductDto.java:18-52 | the product DTO carries the same id, title and live flag and embeds its category's DTO |
| Entities.ProductFromDto | src/main/java/com/mobicoolsoft/electronic/store/service/impl/ProductServiceImpl.java:43 | a product DTO becomes a product referring to the embedded category by its id |
| Entities.ProductRoundTrip | src/main/java/com/mobicoolsoft/electronic/store/service/impl/ProductServiceImpl.java:43-48 | a product whose category is in a table keyed by id survives the trip to its DTO and back |
| Persistence.Database.constructor | src/main/java/com/mobicoolsoft/electronic/store/ElectronicStoreApplication.java:26-41 | the database starts with only the seeded roles and empty user, category and product tables, every row filed under its own id |
| UserService.NewUser | src/main/java/com/mobicoolsoft/electronic/store/service/impl/UserServiceImpl.java:58-64 | the created user has the generated id and exactly the `ROLE_USER` role, and maps back to the input DTO with that id written in |
| UserService.UpdatedUser | src/main/java/com/mobicoolsoft/electronic/store/service/impl/UserServiceImpl.java:80-85 | the updated user keeps its id and roles, takes name, about, gender and image from the DTO, and email and password trimmed |
| UserService.ResubmittedUpdateIsNoOp | src/main/java/com/mobicoolsoft/electronic/store/service/impl/UserServiceImpl.java:81-82 | updating a user with the DTO an update returned changes nothing |
| UserService.DeleteUserCascading | src/main/java/com/mobicoolsoft/electronic/store/entity/User.java:40-44 | `deleteUser` as mapped: not-found exactly for an unknown id; refused exactly when another user holds a role with the id of one of its roles; succeeds exactly otherwise, removing the user and exactly the roles it held, every other role kept as it was |
| UserService.DeletingSoleUserDropsTheRole | src/main/java/com/mobicoolsoft/electronic/store/service/impl/UserServiceImpl.java:99-100 | deleting the only user holding `ROLE_USER` empties the role table as well |
| UserService.DeletingOneOfTwoUsersIsRefused | src/main/java/com/mobicoolsoft/electronic/store/service/impl/UserServiceImpl.java:99-100 | deleting one of two users holding the same role row, even as two `Role` values with one id, is refused by the database |
| UserService.GetAllUsers | src/main/java/com/mobicoolsoft/electronic/store/service/impl/UserServiceImpl.java:108-125 | fails only with the page error, succeeds exactly when the request is valid and the storage answers, and then lists the storage page mapped to DTOs in order with page number (index plus one), page size, total elements, total pages and last-page flag as the storage gave them |
| UserService.ByNameContaining | src/main/java/com/mobicoolsoft/electronic/store/service/impl/UserServiceImpl.java:167-184 | fails only with the page error, succeeds exactly when the request is valid and the name query answers, and then lists that page mapped to DTOs in order, with page number (index plus one), page size, total elements, total pages and last-page flag as the storage gave them |
| UserService.ByNameContainingOnlyMatches | src/main/java/com/mobicoolsoft/electronic/store/service/impl/UserServiceImpl.java:174 | every user listed has a name containing the keyword |
| UserService.UserServiceImpl.CreateUser | src/main/java/com/mobicoolsoft/electronic/store/service/impl/UserServiceImpl.java:54-70 | saves `NewUser` under the generated id and answers its DTO; with no `ROLE_USER` row it fails with `NoSuchElementException` and saves nothing |
| UserService.UserServiceImpl.UpdateUser | src/main/java/com/mobicoolsoft/electronic/store/service/impl/UserServiceImpl.java:76-91 | replaces the stored user by `UpdatedUser`; an unknown id fails with not-found on "UserID" and changes nothing |
| UserService.UserServiceImpl.DeleteUser | src/main/java/com/mobicoolsoft/electronic/store/service/impl/UserServiceImpl.java:97-103 | corrected `deleteUser` (see Findings): removes exactly that user and leaves the role table alone; an unknown id fails with not-found and changes nothing |
| UserService.UserServiceImpl.GetUserById | src/main/java/com/mobicoolsoft/electronic/store/service/impl/UserServiceImpl.java:131-138 | answers the stored user's DTO exactly when the id is stored, not-found otherwise |
| UserService.UserServiceImpl.SingleMatch | src/main/java/com/mobicoolsoft/electronic/store/repository/UserRepository.java:15-17 | a single-result query answers the one matching user, `notFound` for none, and `IncorrectResultSizeDataAccessException` for several |
| UserService.UserServiceImpl.GetUserByEmail | src/main/java/com/mobicoolsoft/electronic/store/service/impl/UserServiceImpl.java:143-150 | answers the one user with that email, not-found on "Email" when there is none |
| UserService.UserServiceImpl.GetUserByEmailAndPassword | src/main/java/com/mobicoolsoft/electronic/store/service/impl/UserServiceImpl.java:155-162 | answers the one user with that email and password, not-found on "Email" when there is none |
| CategoryService.NewCategory | src/main/java/com/mobicoolsoft/electronic/store/service/impl/CategoryServiceImpl.java:37-41 | the created category has the generated id whatever id the DTO carried, and otherwise the DTO's fields |
| CategoryService.UpdatedCategory | src/main/java/com/mobicoolsoft/electronic/store/service/impl/CategoryServiceImpl.java:48-51 | the updated category keeps id and `createdBy` and takes every other field from the DTO |
| CategoryService.UpdateReadsOnlyEditableFields | src/main/java/com/mobicoolsoft/electronic/store/service/impl/CategoryServiceImpl.java:48-51 | two DTOs agreeing on title, description, cover image and `updatedBy` give the same update |
| CategoryService.WithoutCategory | src/main/java/com/mobicoolsoft/electronic/store/entity/Category.java:26-27 | the cascade removes exactly the products of the deleted category and leaves every other product as it was |
| CategoryService.DeleteCategoryKeepsReferences | src/main/java/com/mobicoolsoft/electronic/store/service/impl/CategoryServiceImpl.java:58-59 | after a category is deleted with its products, every product still refers to a stored category or none |
| CategoryService.GetAllCategories | src/main/java/com/mobicoolsoft/electronic/store/service/impl/CategoryServiceImpl.java:63-73 | fails only with the page error, succeeds exactly when the request is valid and the storage answers, and then lists the storage page mapped in order with page number (index plus one), page size, total elements, total pages and last-page flag as the storage gave them |
| CategoryService.SearchCategoryByTitleKeyword | src/main/java/com/mobicoolsoft/electronic/store/service/impl/CategoryServiceImpl.java:82-92 | fails only with the page error, succeeds exactly when the request is valid and the title query answers, and then lists that page mapped to DTOs in order, with page number (index plus one), page size, total elements, total pages and last-page flag as the storage gave them |
| CategoryService.SearchOnlyMatches | src/main/java/com/mobicoolsoft/electronic/store/service/impl/CategoryServiceImpl.java:86 | every category listed has a title containing the keyword |
| CategoryService.CategoryServiceImpl.CreateCategory | src/main/java/com/mobicoolsoft/electronic/store/service/impl/CategoryServiceImpl.java:36-43 | saves `NewCategory` under the generated id and answers the input DTO with that id |
| CategoryService.CategoryServiceImpl.UpdateCategory | src/main/java/com/mobicoolsoft/electronic/store/service/impl/CategoryServiceImpl.java:46-54 | replaces the stored category by `UpdatedCategory`; an unknown id fails with not-found on "categoryId" and changes nothing |
| CategoryService.CategoryServiceImpl.DeleteCategory | src/main/java/com/mobicoolsoft/electronic/store/service/impl/CategoryServiceImpl.java:57-60 | removes the category and, by the cascade, its products; an unknown id fails with not-found and changes nothing |
| CategoryService.CategoryServiceImpl.GetCategoryById | src/main/java/com/mobicoolsoft/electronic/store/service/impl/CategoryServiceImpl.java:76-79 | answers the stored category's DTO exactly when the id is stored, not-found otherwise |
| ProductService.NewProduct | src/main/java/com/mobicoolsoft/electronic/store/service/impl/ProductServiceImpl.java:41-46 | the created product has the generated id and creation time, refers to the category the DTO names, and maps back to the input DTO with that id and time written in |
| ProductService.NewProductInCategory | src/main/java/com/mobicoolsoft/electronic/store/service/impl/ProductServiceImpl.java:52-58 | the created product has the generated id and the given category, and maps back to the input DTO with that id written in and the stored category's DTO embedded |
| ProductService.UpdatedProduct | src/main/java/com/mobicoolsoft/electronic/store/service/impl/ProductServiceImpl.java:74-84 | the updated product takes the nine editable fields from the DTO and keeps id, category, `createdBy` and both timestamps |
| ProductService.UpdateKeepsIdentity | src/main/java/com/mobicoolsoft/electronic/store/service/impl/ProductServiceImpl.java:74-84 | an update never changes the id, category, `createdBy` or timestamps |
| ProductService.AssignedCategory | src/main/java/com/mobicoolsoft/electronic/store/service/impl/ProductServiceImpl.java:65-68 | assigning a category sets the category and changes no other field |
| ProductService.FiledProductShowsCategory | src/main/java/com/mobicoolsoft/electronic/store/service/impl/ProductServiceImpl.java:67-69 | the DTO of a product filed under a stored category embeds that category's DTO |
| ProductService.GetAllProducts | src/main/java/com/mobicoolsoft/electronic/store/service/impl/ProductServiceImpl.java:95-105 | fails only with the page error, succeeds exactly when the request is valid and the storage answers, and then lists the storage page mapped in order with page number (index plus one), page size, total elements, total pages and last-page flag as the storage gave them |
| ProductService.GetProductsByCategory | src/main/java/com/mobicoolsoft/electronic/store/service/impl/ProductServiceImpl.java:114-125 | fails only with the page error, and succeeds exactly when the request is valid, the category is stored and the query answers; then lists that page mapped to DTOs in order, with page number (index plus one), page size, total elements, total pages and last-page flag as the storage gave them |
| ProductService.UnknownCategoryIsPageError | src/main/java/com/mobicoolsoft/electronic/store/service/impl/ProductServiceImpl.java:118-124 | an unknown category gives the page error, not not-found |
| ProductService.ProductsByCategoryOnlyThatCategory | src/main/java/com/mobicoolsoft/electronic/store/service/impl/ProductServiceImpl.java:119 | every product listed embeds the DTO of the requested category |
| ProductService.GetByTitleContaining | src/main/java/com/mobicoolsoft/electronic/store/service/impl/ProductServiceImpl.java:128-138 | fails only with the page error, succeeds exactly when the request is valid and the title query answers, and then lists that page mapped to DTOs in order, with page number (index plus one), page size, total elements, total pages and last-page flag as the storage gave them |
| ProductService.TitleContainingOnlyMatches | src/main/java/com/mobicoolsoft/electronic/store/service/impl/ProductServiceImpl.java:132 | every product listed has a title containing the subtitle |
| ProductService.GetByLiveTrue | src/main/java/com/mobicoolsoft/electronic/store/service/impl/ProductServiceImpl.java:141-151 | fails only with the page error, succeeds exactly when the request is valid and the live query answers, and then lists that page mapped to DTOs in order, with page number (index plus one), page size, total elements, total pages and last-page flag as the storage gave them |
| ProductService.LiveTrueOnlyLive | src/main/java/com/mobicoolsoft/electronic/store/service/impl/ProductServiceImpl.java:145 | every product listed is live |
| ProductService.ThreeProductsOfCategory | src/test/java/com/mobicoolsoft/electronic/store/service/impl/ProductServiceImplTest.java:219-231 | page 1 of 5 of a stored category over an unpaged page of three products lists three, counts three, and is the last |
| ProductService.ContentComesFromStorage | src/test/java/com/mobicoolsoft/electronic/store/service/impl/ProductServiceImplTest.java:260-265 | with page size 1, a query answering three products lists three: the envelope does not cut the storage page |
| ProductService.MisspeltDirectionStillLists | src/test/java/com/mobicoolsoft/electronic/store/service/impl/ProductServiceImplTest.java:293-299 | "ace" asks for a descending page and the live listing still answers the three products |
| ProductService.ProductServiceImpl.CreateProduct | src/main/java/com/mobicoolsoft/electronic/store/service/impl/ProductServiceImpl.java:41-49 | saves `NewProduct` under the generated id and answers its DTO |
| ProductService.ProductServiceImpl.CreateProductWithCategory | src/main/java/com/mobicoolsoft/electronic/store/service/impl/ProductServiceImpl.java:52-61 | saves `NewProductInCategory` and answers a DTO embedding the category; an unknown category fails with not-found and saves nothing |
| ProductService.ProductServiceImpl.AssignCategoryToProduct | src/main/java/com/mobicoolsoft/electronic/store/service/impl/ProductServiceImpl.java:64-70 | replaces the product by `AssignedCategory`; checks the category first, then the product, each failing with its own not-found and changing nothing |
| ProductService.ProductServiceImpl.UpdateProduct | src/main/java/com/mobicoolsoft/electronic/store/service/impl/ProductServiceImpl.java:73-86 | replaces the product by `UpdatedProduct`; an unknown id fails with not-found on "productId" and changes nothing |
| ProductService.ProductServiceImpl.DeleteProduct | src/main/java/com/mobicoolsoft/electronic/store/service/impl/ProductServiceImpl.java:89-92 | removes exactly that product; an unknown id fails with not-found and changes nothing |
| ProductService.ProductServiceImpl.GetProductById | src/main/java/com/mobicoolsoft/electronic/store/service/impl/ProductServiceImpl.java:108-111 | answers the stored product's DTO exactly when the id is stored, not-found otherwise |
| FileService.Extension | src/main/java/com/mobicoolsoft/electronic/store/service/impl/FileServiceImpl.java:41 | the extension is the suffix from the last dot, dot included, with no dot after its first character; a name without a dot throws `StringIndexOutOfBoundsException` at -1 |
| FileService.AllowedExtension | src/main/java/com/mobicoolsoft/electronic/store/service/impl/FileServiceImpl.java:42 | an extension is allowed exactly when it folds, ignoring case, to ".png", ".jpeg" or ".jpg" |
| FileService.UploadImageName | src/main/java/com/mobicoolsoft/electronic/store/service/impl/FileServiceImpl.java:34-62 | an empty name gives `EMPTY_IMAGE_MSG`; a dotless name throws out of the extension step; an allowed extension gives the generated base plus the extension; any other gives `EXTENSION_MSG` |
| FileService.UploadImageNameChecked | src/main/java/com/mobicoolsoft/electronic/store/service/impl/FileServiceImpl.java:41-57 | corrected upload: fails only with the two `BadApiRequestException` messages, and an accepted name is the base plus an allowed suffix from a dot of the original |
| FileService.CheckedDiffersOnlyOnDotlessNames | src/main/java/com/mobicoolsoft/electronic/store/service/impl/FileServiceImpl.java:41 | the corrected upload differs from the written one exactly on non-empty names without a dot |
| FileService.DotlessNameThrowsIndexError | src/main/java/com/mobicoolsoft/electronic/store/service/impl/FileServiceImpl.java:41 | "photo" throws `StringIndexOutOfBoundsException` as written and gets `EXTENSION_MSG` when corrected |
| FileService.ExtensionKeepsItsCase | src/main/java/com/mobicoolsoft/electronic/store/service/impl/FileServiceImpl.java:42-43 | "photo.PNG" is stored with ".PNG", and ".jpeg" alone is accepted |
| FileService.OnlyTheLastDotCounts | src/main/java/com/mobicoolsoft/electronic/store/service/impl/FileServiceImpl.java:41-42 | only the suffix from the last dot is the extension: "archive.tar.jpg" is stored with ".jpg" |
| FileService.InnerAllowedExtensionDoesNotHelp | src/main/java/com/mobicoolsoft/electronic/store/service/impl/FileServiceImpl.java:41-56 | "photo.png.exe" is refused with the extension message although it contains ".png" |
| FileService.OtherFormatIsRefused | src/main/java/com/mobicoolsoft/electronic/store/service/impl/FileServiceImpl.java:54-57 | "photo.gif" is refused with `EXTENSION_MSG` |
| FileService.UploadTarget | src/main/java/com/mobicoolsoft/electronic/store/service/impl/FileServiceImpl.java:45 | the upload target is `path` immediately followed by the stored name |
| FileService.ServePath | src/main/java/com/mobicoolsoft/electronic/store/service/impl/FileServiceImpl.java:73 | the served path is `path`, the separator, then the name |
| FileService.ServeAndUploadPathsDiffer | src/main/java/com/mobicoolsoft/electronic/store/service/impl/FileServiceImpl.java:73 | the served path is the upload target under `path + separator`, and equals the upload target under `path` only when the separator is empty |

## Left out

- Null references are not modelled: every string, number and DTO is present. The `NullPointerException`s the services would raise on a null email, password or original file name do not appear.
- `equalsIgnoreCase` is modelled for comparisons in which one side is ASCII. That covers "asc" and the three extensions. It includes the four non-ASCII characters whose Java case mapping reaches an ASCII letter. Comparing two arbitrary non-ASCII strings is not modelled.
- `Character.isWhitespace` follows the Unicode tables of Java 17, the oldest runtime the `jakarta` APIs the application imports run on. U+180E, white space before Java 9, counts as text here.
- The SQL of the derived queries is not modelled. This covers `...Containing`, `findByEmail`, `findByLiveTrue` and `findByCategory`, including database collation and how a sort property is resolved. These queries are storage parameters. Their filter is a hypothesis of the "only matching" lemmas.
- UserService.ByNameContainingOnlyMatches: states the keyword property given that the repository query keeps only matching names, because the query's SQL is not part of the model. The same holds for CategoryService.SearchOnlyMatches, ProductService.TitleContainingOnlyMatches, ProductService.LiveTrueOnlyLive and ProductService.ProductsByCategoryOnlyThatCategory.
- Spring's own `PageImpl` and `PageRequest` arithmetic is only used in the reference repository. The envelope copies whatever the repository answers.
- The reference repository answers a descending sort as the ascending order reversed. The relative order of records with equal sort keys is not modelled.
- ModelMapper's reflective mapping is replaced by explicit field copies. `UserDto.userId` is taken to map to the entity's `id`, and the user DTO carries no roles.
- `CategoryDto` (src/main/java/com/mobicoolsoft/electronic/store/dto/CategoryDto.java:16-31) declares no `createdBy` or `updatedBy`, yet the service reads both. The model follows the service and gives the category DTO those fields.
- The audit fields users inherit from `BaseEntityAudit`, a class not shown, are left out because no user operation sets them.
- A product's `Double` price is an opaque 64-bit pattern that is only copied.
- `UUID.randomUUID()` and `new Date()` are parameters. A generated id is not assumed fresh: `save` puts the row under that id and would overwrite an existing one.
- `createUser` also writes the generated id into the caller's DTO. Only the returned DTO is modelled.
- The value of `AppConstants.ROLE_USER` is not part of this model (it is missing from the constants file), so the role id is a field of the user service. The roles seeded at start-up are the `Database` constructor's argument.
- `createProduct` stores the category id the DTO names without checking the category table. JPA's handling of a detached category there is not modelled. The answered DTO embeds the stored category's DTO, not the one echoed from the input.
- File-system I/O is not modelled: `mkdirs`, `Files.copy` and the stream `serveImage` opens. Only the stored name and the two path strings are modelled.
- Controllers, request defaults, `GlobalExceptionHandler`, logging, bean validation annotations and transactions are not part of this model.

## Findings

| source | as written | input that shows it | evidently intended | confidence | as-written member | corrected member |
|---|---|---|---|---|---|---|
| src/main/java/com/mobicoolsoft/electronic/store/service/impl/FileServiceImpl.java:41 | the extension is taken from the last dot without checking that there is one, so a non-empty name without a dot calls `substring(-1)` | original name "photo" (`FileService.DotlessNameThrowsIndexError`) | the name is refused with `BadApiRequestException(EXTENSION_MSG)` like any other name without an allowed extension | medium, not executed | FileService.UploadImageName | FileService.UploadImageNameChecked |
| src/main/java/com/mobicoolsoft/electronic/store/entity/User.java:40-44 | the user's roles are mapped with `CascadeType.ALL`, so `deleteUser` also removes the user's role rows | one user holding `ROLE_USER`, deleted: the role row goes, and every later `createUser` fails on the role lookup (`UserService.DeletingSoleUserDropsTheRole`); two users sharing a role: the delete is refused (`UserService.DeletingOneOfTwoUsersIsRefused`) | deleting a user removes only that user and leaves the shared role table alone | medium, not executed | UserService.DeleteUserCascading | UserService.UserServiceImpl.DeleteUser |
