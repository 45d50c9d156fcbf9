/** The product edits of SushiBE/Controllers/ProductController.cs: creating
    a product from a form with between one and eight uploads, replacing its
    fields and (optionally) its images, switching its availability, and the
    absolute form of an image URL. Writing and deleting the image files is
    outside the model; a generated file name is given per upload. */
module ProductController {
  import opened Common
  import opened Models
  import opened Text
  import opened Data

  /** An uploaded file: its length and the extension of its file name. */
  datatype Upload = Upload(length: int, extension: string)

  /** The scalar fields of the create and update forms. */
  datatype ProductForm = ProductForm(name: string, description: string, price: Money, stock: int, categoryId: Id)

  /** What each new image depends on: the text of the file-name GUID and the
      id drawn for the i-th upload. */
  datatype ImageEnv = ImageEnv(guidText: nat -> string, imageId: nat -> Id)

  const MaxImages := 8

  /** Where `Create` and `Update` say an image is served from; the two
      actions use different prefixes. */
  const CreatePrefix := "SushiBE/wwwroot/Images/"
  const UpdatePrefix := "/images/"

  /** The image stored for upload `i`: `{prefix}{guid}{extension}`. */
  function ImageFor(uploads: seq<Upload>, i: nat, productId: Id, prefix: string, env: ImageEnv): ProductImage
    requires i < |uploads|
  {
    ProductImage(env.imageId(i), productId, prefix + env.guidText(i) + uploads[i].extension)
  }

  /** The images kept from the first `n` uploads: one per non-empty upload,
      in upload order. */
  function KeptImages(uploads: seq<Upload>, n: nat, productId: Id, prefix: string, env: ImageEnv): seq<ProductImage>
    requires n <= |uploads|
  {
    if n == 0 then []
    else
      var kept := if uploads[n - 1].length > 0 then [ImageFor(uploads, n - 1, productId, prefix, env)] else [];
      KeptImages(uploads, n - 1, productId, prefix, env) + kept
  }

  /** How many of the first `n` uploads are non-empty. */
  function NonEmptyCount(uploads: seq<Upload>, n: nat): nat
    requires n <= |uploads|
  {
    if n == 0 then 0 else NonEmptyCount(uploads, n - 1) + (if uploads[n - 1].length > 0 then 1 else 0)
  }

  /** One image per non-empty upload and none for an empty one, so never more
      images than uploads; each belongs to the product, lies under the
      prefix, and is the image of one non-empty upload; and every non-empty
      upload has its image. */
  lemma {:induction false} KeptImagesSpec(uploads: seq<Upload>, n: nat, productId: Id, prefix: string, env: ImageEnv)
    requires n <= |uploads|
    ensures var r := KeptImages(uploads, n, productId, prefix, env);
      && |r| == NonEmptyCount(uploads, n) <= n
      && (forall j :: 0 <= j < |r| ==> r[j].productId == productId && prefix <= r[j].imageUrl)
      && (forall j :: 0 <= j < |r| ==>
            exists i :: 0 <= i < n && uploads[i].length > 0 && r[j] == ImageFor(uploads, i, productId, prefix, env))
      && (forall i :: 0 <= i < n && uploads[i].length > 0 ==> ImageFor(uploads, i, productId, prefix, env) in r)
  {
    KeptCount(uploads, n, productId, prefix, env);
    KeptShape(uploads, n, productId, prefix, env);
    KeptFromUploads(uploads, n, productId, prefix, env);
    KeptEveryUpload(uploads, n, productId, prefix, env);
  }

  lemma {:induction false} KeptCount(uploads: seq<Upload>, n: nat, productId: Id, prefix: string, env: ImageEnv)
    requires n <= |uploads|
    ensures |KeptImages(uploads, n, productId, prefix, env)| == NonEmptyCount(uploads, n) <= n
  {
    if n > 0 {
      KeptCount(uploads, n - 1, productId, prefix, env);
    }
  }

  lemma {:induction false} KeptShape(uploads: seq<Upload>, n: nat, productId: Id, prefix: string, env: ImageEnv)
    requires n <= |uploads|
    ensures forall j :: 0 <= j < |KeptImages(uploads, n, productId, prefix, env)| ==>
      && KeptImages(uploads, n, productId, prefix, env)[j].productId == productId
      && prefix <= KeptImages(uploads, n, productId, prefix, env)[j].imageUrl
  {
    if n > 0 {
      KeptShape(uploads, n - 1, productId, prefix, env);
      var r := KeptImages(uploads, n, productId, prefix, env);
      var q := KeptImages(uploads, n - 1, productId, prefix, env);
      assert r == q + (if uploads[n - 1].length > 0 then [ImageFor(uploads, n - 1, productId, prefix, env)] else []);
      forall j | 0 <= j < |r| ensures r[j].productId == productId && prefix <= r[j].imageUrl {
        if j < |q| {
          assert r[j] == q[j];
        } else {
          var url := prefix + env.guidText(n - 1) + uploads[n - 1].extension;
          assert r[j] == ProductImage(env.imageId(n - 1), productId, url);
          assert url[..|prefix|] == prefix;
          assert prefix <= url;
        }
      }
    }
  }

  lemma {:induction false} KeptFromUploads(uploads: seq<Upload>, n: nat, productId: Id, prefix: string, env: ImageEnv)
    requires n <= |uploads|
    ensures forall j :: 0 <= j < |KeptImages(uploads, n, productId, prefix, env)| ==>
      exists i :: 0 <= i < n && uploads[i].length > 0 &&
        KeptImages(uploads, n, productId, prefix, env)[j] == ImageFor(uploads, i, productId, prefix, env)
  {
    if n > 0 {
      KeptFromUploads(uploads, n - 1, productId, prefix, env);
      var r := KeptImages(uploads, n, productId, prefix, env);
      var q := KeptImages(uploads, n - 1, productId, prefix, env);
      assert r == q + (if uploads[n - 1].length > 0 then [ImageFor(uploads, n - 1, productId, prefix, env)] else []);
      forall j | 0 <= j < |r|
        ensures exists i :: 0 <= i < n && uploads[i].length > 0 && r[j] == ImageFor(uploads, i, productId, prefix, env)
      {
        if j < |q| {
          assert r[j] == q[j];
          var i :| 0 <= i < n - 1 && uploads[i].length > 0 && q[j] == ImageFor(uploads, i, productId, prefix, env);
        } else {
          assert r[j] == ImageFor(uploads, n - 1, productId, prefix, env);
        }
      }
    } else {
      assert KeptImages(uploads, n, productId, prefix, env) == [];
    }
  }

  lemma {:induction false} KeptEveryUpload(uploads: seq<Upload>, n: nat, productId: Id, prefix: string, env: ImageEnv)
    requires n <= |uploads|
    ensures var r := KeptImages(uploads, n, productId, prefix, env);
      forall i :: 0 <= i < n && uploads[i].length > 0 ==> ImageFor(uploads, i, productId, prefix, env) in r
  {
    if n > 0 {
      KeptEveryUpload(uploads, n - 1, productId, prefix, env);
      var r := KeptImages(uploads, n, productId, prefix, env);
      var q := KeptImages(uploads, n - 1, productId, prefix, env);
      assert r == q + (if uploads[n - 1].length > 0 then [ImageFor(uploads, n - 1, productId, prefix, env)] else []);
      forall i | 0 <= i < n && uploads[i].length > 0 ensures ImageFor(uploads, i, productId, prefix, env) in r {
        if i < n - 1 {
          assert ImageFor(uploads, i, productId, prefix, env) in q;
        } else {
          assert r[|r| - 1] == ImageFor(uploads, i, productId, prefix, env);
        }
      }
    }
  }

  /** Only empty uploads: no image at all. */
  lemma {:induction false} NoImagesFromEmptyUploads(uploads: seq<Upload>, n: nat, productId: Id, prefix: string, env: ImageEnv)
    requires n <= |uploads|
    ensures KeptImages(uploads, n, productId, prefix, env) == [] <==> forall i :: 0 <= i < n ==> uploads[i].length <= 0
  {
    KeptImagesSpec(uploads, n, productId, prefix, env);
    if KeptImages(uploads, n, productId, prefix, env) != [] {
      var r := KeptImages(uploads, n, productId, prefix, env);
      var i :| 0 <= i < n && uploads[i].length > 0 && r[0] == ImageFor(uploads, i, productId, prefix, env);
    }
  }

  /** The upload loop of `Create` and `Update`: each non-empty upload is
      saved under a fresh name and recorded as an image of the product. */
  method SaveImages(uploads: seq<Upload>, productId: Id, prefix: string, env: ImageEnv)
    returns (images: seq<ProductImage>)
    ensures images == KeptImages(uploads, |uploads|, productId, prefix, env)
  {
    images := [];
    var i := 0;
    while i < |uploads|
      invariant 0 <= i <= |uploads|
      invariant images == KeptImages(uploads, i, productId, prefix, env)
    {
      if uploads[i].length > 0 {
        var fileName := env.guidText(i) + uploads[i].extension;
        images := images + [ProductImage(env.imageId(i), productId, prefix + fileName)];
        assert prefix + fileName == prefix + env.guidText(i) + uploads[i].extension;
      }
      i := i + 1;
    }
  }

  /** `Images.FirstOrDefault()?.ImageUrl`. */
  function FirstImageUrl(images: seq<ProductImage>): (r: Option<string>)
    ensures r.None? <==> images == []
    ensures r.Some? ==> r.value == images[0].imageUrl
  {
    if images == [] then None else Some(images[0].imageUrl)
  }

  // ---------------------------------------------------------------------
  // ToAbsoluteUrl

  /** The scheme and host of the current request. */
  datatype Request = Request(scheme: string, host: string)

  /** `ToAbsoluteUrl`: nothing for a missing or empty URL, the URL itself
      outside a request, and otherwise `{scheme}://{host}` put in front of it. */
  function ToAbsoluteUrl(relativeUrl: Option<string>, request: Option<Request>): Option<string>
  {
    if relativeUrl.None? || relativeUrl.value == "" then None
    else if request.None? then relativeUrl
    else Some(request.value.scheme + "://" + request.value.host + relativeUrl.value)
  }

  /** The absolute URL is missing exactly for a missing or empty URL, and
      otherwise ends with the relative URL, preceded by nothing outside a
      request and by exactly the request's `scheme://host` within one. */
  lemma ToAbsoluteUrlSpec(relativeUrl: Option<string>, request: Option<Request>)
    ensures var r := ToAbsoluteUrl(relativeUrl, request);
      && (r.None? <==> relativeUrl.None? || relativeUrl.value == "")
      && (r.Some? ==>
            var base := if request.None? then "" else request.value.scheme + "://" + request.value.host;
            && |base| + |relativeUrl.value| == |r.value|
            && r.value[..|base|] == base
            && r.value[|base|..] == relativeUrl.value)
  {
  }

  /** The URLs `Create` answers: the absolute form of each stored image, the
      missing ones dropped. */
  function AbsoluteUrls(images: seq<ProductImage>, request: Option<Request>): seq<string>
  {
    if images == [] then []
    else
      var u := ToAbsoluteUrl(Some(images[0].imageUrl), request);
      (if u.Some? then [u.value] else []) + AbsoluteUrls(images[1..], request)
  }

  /** Images under a non-empty prefix all have a URL: one answer per image,
      in order. */
  lemma {:induction false} AbsoluteUrlsAll(images: seq<ProductImage>, request: Option<Request>, prefix: string)
    requires prefix != ""
    requires forall j :: 0 <= j < |images| ==> prefix <= images[j].imageUrl
    ensures var r := AbsoluteUrls(images, request);
      && |r| == |images|
      && forall j :: 0 <= j < |r| ==> Some(r[j]) == ToAbsoluteUrl(Some(images[j].imageUrl), request)
  {
    if images != [] {
      assert prefix <= images[0].imageUrl;
      AbsoluteUrlsAll(images[1..], request, prefix);
    }
  }

  // ---------------------------------------------------------------------
  // Create

  /** The product `Create` stores: the form's fields, available, with the
      kept images and the first one's URL as its image URL. */
  function NewProduct(productId: Id, form: ProductForm, images: seq<ProductImage>): Product
  {
    Product(productId, form.name, form.description, form.price, form.stock,
            FirstImageUrl(images), true, form.categoryId, images)
  }

  /** `POST api/product`. No uploads, or more than eight, answer BadRequest
      and add nothing; otherwise one product is added under the fresh id with
      the images of its non-empty uploads, and the answer lists their
      absolute URLs. */
  method Create(db: Db, form: ProductForm, uploads: Option<seq<Upload>>, freshId: Id,
                env: ImageEnv, request: Option<Request>)
    returns (status: Status, imageUrls: seq<string>)
    requires db.Valid()
    requires forall j :: 0 <= j < |db.products| ==> db.products[j].productId != freshId
    modifies db
    ensures db.Valid()
    ensures db.users == old(db.users) && db.carts == old(db.carts) && db.canOrders == old(db.canOrders)
    ensures db.orders == old(db.orders) && db.orderItems == old(db.orderItems) && db.invoices == old(db.invoices)
    ensures status == BadRequest <==> uploads.None? || |uploads.value| == 0 || |uploads.value| > MaxImages
    ensures status == BadRequest ==> db.products == old(db.products) && imageUrls == []
    ensures status != BadRequest ==>
      var images := KeptImages(uploads.value, |uploads.value|, freshId, CreatePrefix, env);
      && status == Created
      && db.products == old(db.products) + [NewProduct(freshId, form, images)]
      && imageUrls == AbsoluteUrls(images, request)
  {
    if uploads.None? || |uploads.value| == 0 {
      return BadRequest, [];
    }
    if |uploads.value| > MaxImages {
      return BadRequest, [];
    }
    var images := SaveImages(uploads.value, freshId, CreatePrefix, env);
    var imageUrl: Option<string> := None;
    if |images| > 0 {
      imageUrl := Some(images[0].imageUrl);
    }
    var product := Product(freshId, form.name, form.description, form.price, form.stock,
                           imageUrl, true, form.categoryId, images);
    db.products := db.products + [product];
    status := Created;
    imageUrls := AbsoluteUrls(images, request);
  }

  /** A created product has at most as many images as uploads, all its
      own; its image URL is the first image's whenever it has one; and the
      answer holds one absolute URL per image. Uploads that are all empty
      pass the check and give a product without images. */
  lemma CreatedProductSpec(productId: Id, form: ProductForm, uploads: seq<Upload>, env: ImageEnv, request: Option<Request>)
    requires 0 < |uploads| <= MaxImages
    ensures var images := KeptImages(uploads, |uploads|, productId, CreatePrefix, env);
      var p := NewProduct(productId, form, images);
      && |p.images| <= |uploads|
      && (forall j :: 0 <= j < |p.images| ==> p.images[j].productId == productId)
      && (p.images != [] ==> p.imageUrl == Some(p.images[0].imageUrl))
      && (p.images == [] <==> p.imageUrl.None?)
      && (p.images == [] <==> forall i :: 0 <= i < |uploads| ==> uploads[i].length <= 0)
      && |AbsoluteUrls(images, request)| == |images|
  {
    KeptImagesSpec(uploads, |uploads|, productId, CreatePrefix, env);
    NoImagesFromEmptyUploads(uploads, |uploads|, productId, CreatePrefix, env);
    AbsoluteUrlsAll(KeptImages(uploads, |uploads|, productId, CreatePrefix, env), request, CreatePrefix);
  }

  // ---------------------------------------------------------------------
  // Update

  /** The product after an update: the form's five fields always; and, when
      uploads are given, the kept images in place of the old ones and the
      first one's URL (or none) as its image URL. */
  function Updated(p: Product, form: ProductForm, uploads: Option<seq<Upload>>, env: ImageEnv): Product
  {
    var q := p.(name := form.name, description := form.description, price := form.price,
                stock := form.stock, categoryId := form.categoryId);
    if uploads.None? || |uploads.value| == 0 then q
    else
      var images := KeptImages(uploads.value, |uploads.value|, p.productId, UpdatePrefix, env);
      q.(images := images, imageUrl := FirstImageUrl(images))
  }

  /** An update keeps the id and the availability; without uploads it keeps
      the images and image URL as well. With uploads the old images are
      replaced: the product's images are exactly one per non-empty upload,
      each under "/images/" and for this product, with no old image left
      over; the image URL is the first new image's, and none when all
      uploads are empty. */
  lemma UpdatedSpec(p: Product, form: ProductForm, uploads: Option<seq<Upload>>, env: ImageEnv)
    ensures var r := Updated(p, form, uploads, env);
      && r.productId == p.productId && r.disponible == p.disponible
      && r.name == form.name && r.description == form.description && r.price == form.price
      && r.stock == form.stock && r.categoryId == form.categoryId
      && (uploads.None? || |uploads.value| == 0 ==> r.images == p.images && r.imageUrl == p.imageUrl)
      && (uploads.Some? && |uploads.value| > 0 ==>
            var us := uploads.value;
            && r.images == KeptImages(us, |us|, p.productId, UpdatePrefix, env)
            && |r.images| == NonEmptyCount(us, |us|) <= |us|
            && (forall j :: 0 <= j < |r.images| ==>
                  && r.images[j].productId == p.productId && UpdatePrefix <= r.images[j].imageUrl
                  && exists i :: 0 <= i < |us| && us[i].length > 0 && r.images[j] == ImageFor(us, i, p.productId, UpdatePrefix, env))
            && (forall i :: 0 <= i < |us| && us[i].length > 0 ==> ImageFor(us, i, p.productId, UpdatePrefix, env) in r.images)
            && (r.images != [] ==> r.imageUrl == Some(r.images[0].imageUrl))
            && (r.images == [] <==> r.imageUrl.None?))
  {
    if uploads.Some? && |uploads.value| > 0 {
      KeptImagesSpec(uploads.value, |uploads.value|, p.productId, UpdatePrefix, env);
    }
  }

  /** Updating twice with the same form and no uploads is updating once. */
  lemma UpdateFieldsIdempotent(p: Product, form: ProductForm, env: ImageEnv)
    ensures Updated(Updated(p, form, None, env), form, None, env) == Updated(p, form, None, env)
  {
  }

  /** Replacing one product with a record of the same id keeps ids unique. */
  lemma ReplaceKeepsIds(products: seq<Product>, k: nat, p: Product)
    requires k < |products| && UniqueProductIds(products)
    requires p.productId == products[k].productId
    ensures UniqueProductIds(products[k := p])
  {
  }

  /** `PUT api/product/{id}`. An unknown id answers NotFound; more than eight
      uploads answer BadRequest before anything is saved; otherwise the
      product is updated and the answer is NoContent. */
  method Update(db: Db, productId: Id, form: ProductForm, uploads: Option<seq<Upload>>, env: ImageEnv)
    returns (status: Status)
    requires db.Valid()
    modifies db
    ensures db.Valid()
    ensures db.users == old(db.users) && db.carts == old(db.carts) && db.canOrders == old(db.canOrders)
    ensures db.orders == old(db.orders) && db.orderItems == old(db.orderItems) && db.invoices == old(db.invoices)
    ensures FindProduct(old(db.products), productId).None? ==> status == NotFound && db.products == old(db.products)
    ensures FindProduct(old(db.products), productId).Some? ==>
      var k := FindProduct(old(db.products), productId).value;
      && (status == BadRequest <==> uploads.Some? && |uploads.value| > MaxImages)
      && (status == BadRequest ==> db.products == old(db.products))
      && (status != BadRequest ==>
            status == NoContent && db.products == old(db.products)[k := Updated(old(db.products)[k], form, uploads, env)])
  {
    var found := FindProduct(db.products, productId);
    if found.None? {
      return NotFound;
    }
    var k := found.value;
    var product := db.products[k];
    product := product.(name := form.name, description := form.description, price := form.price);
    product := product.(stock := form.stock, categoryId := form.categoryId);
    if uploads.Some? && |uploads.value| > 0 {
      if |uploads.value| > MaxImages {
        return BadRequest;
      }
      var images := SaveImages(uploads.value, product.productId, UpdatePrefix, env);
      product := product.(images := images);
      product := product.(imageUrl := FirstImageUrl(images));
    }
    ReplaceKeepsIds(db.products, k, product);
    db.products := db.products[k := product];
    status := NoContent;
  }

  // ---------------------------------------------------------------------
  // ToggleDisponible

  /** The products after toggling one: its availability flipped, nothing
      else changed. */
  function Toggled(products: seq<Product>, productId: Id): seq<Product>
  {
    match FindProduct(products, productId)
    case None => products
    case Some(k) => products[k := products[k].(disponible := !products[k].disponible)]
  }

  /** Toggling flips the one product's flag and changes nothing else;
      toggling twice restores the products. */
  lemma ToggleSpec(products: seq<Product>, productId: Id)
    ensures var r := Toggled(products, productId);
      && |r| == |products|
      && (forall j :: 0 <= j < |r| && products[j].productId != productId ==> r[j] == products[j])
      && (FindProduct(products, productId).Some? ==>
            var k := FindProduct(products, productId).value;
            r[k].disponible == !products[k].disponible && r[k].(disponible := products[k].disponible) == products[k])
      && Toggled(r, productId) == products
  {
    match FindProduct(products, productId)
    case None =>
    case Some(k) =>
      var r := Toggled(products, productId);
      assert forall j :: 0 <= j < |r| ==> r[j].productId == products[j].productId;
      assert FindProduct(r, productId) == Some(k);
      assert r[k := r[k].(disponible := !r[k].disponible)] == products;
  }

  /** `PUT api/product/{id}/disponible`: NotFound for an unknown id;
      otherwise the flag is flipped and its new value answered. */
  method ToggleDisponible(db: Db, productId: Id) returns (status: Status, disponible: Option<bool>)
    requires db.Valid()
    modifies db
    ensures db.Valid()
    ensures db.users == old(db.users) && db.carts == old(db.carts) && db.canOrders == old(db.canOrders)
    ensures db.orders == old(db.orders) && db.orderItems == old(db.orderItems) && db.invoices == old(db.invoices)
    ensures db.products == Toggled(old(db.products), productId)
    ensures FindProduct(old(db.products), productId).None? <==> status == NotFound
    ensures status == NotFound ==> disponible.None?
    ensures status != NotFound ==>
      var k := FindProduct(old(db.products), productId).value;
      status == Ok && disponible == Some(!old(db.products)[k].disponible)
  {
    var found := FindProduct(db.products, productId);
    if found.None? {
      return NotFound, None;
    }
    var k := found.value;
    var product := db.products[k];
    product := product.(disponible := !product.disponible);
    ReplaceKeepsIds(db.products, k, product);
    db.products := db.products[k := product];
    status, disponible := Ok, Some(product.disponible);
  }
}
