/** `RecipeService`: create, list, partial update and soft delete of recipes,
    with ownership hiding (a foreign or deleted recipe answers 404). */
module RecipeCatalog {
  import opened Common
  import opened JavaText
  import opened Users
  import opened Recipes
  import opened BrewMethodCatalog

  /** `RecipeCreateDTO`; the update body carries the same fields. */
  datatype RecipeBody = RecipeBody(
    methodId: Option<Uuid>,
    title: Option<string>,
    coffeeAmount: Option<string>,
    waterAmount: Option<string>,
    grindSize: Option<string>,
    brewTimeSeconds: Option<Int32>,
    waterTemperatureCelsius: Option<Int32>,
    rating: Option<Int32>,
    isGlobal: Option<bool>)

  /** `RecipeResponseDTO`: the recipe without its deletion mark. */
  datatype RecipeResponse = RecipeResponse(
    id: Uuid,
    ownerId: Uuid,
    methodId: Uuid,
    title: string,
    coffeeAmount: Option<string>,
    waterAmount: Option<string>,
    grindSize: Option<string>,
    brewTimeSeconds: Option<Int32>,
    waterTemperatureCelsius: Option<Int32>,
    rating: Option<Int32>,
    isGlobal: bool,
    createdAt: Time,
    updatedAt: Time)

  /** `toResponseDTO` */
  function ToResponse(r: Recipe): RecipeResponse
  {
    RecipeResponse(r.id, r.owner, r.brewMethod, r.title, r.coffeeAmount, r.waterAmount, r.grindSize,
                   r.brewTimeSeconds, r.waterTemperatureCelsius, r.rating, r.isGlobal, r.createdAt, r.updatedAt)
  }

  /** The response carries every column of the recipe except its deletion
      mark: two recipes answer alike exactly when they agree on all the rest. */
  lemma ResponseDeterminesRecipe(a: Recipe, b: Recipe)
    ensures ToResponse(a) == ToResponse(b) <==> a.(deletedAt := None) == b.(deletedAt := None)
  {
  }

  /** A rating, when given, lies in 1..5. */
  predicate RatingOk(o: Option<Int32>)
  {
    o.None? || 1 <= o.value <= 5
  }

  /** A brew time or water temperature, when given, is not negative. */
  predicate NonNegative(o: Option<Int32>)
  {
    o.None? || o.value >= 0
  }

  /** The range checks create and update share. */
  predicate RangesOk(b: RecipeBody)
  {
    RatingOk(b.rating) && NonNegative(b.brewTimeSeconds) && NonNegative(b.waterTemperatureCelsius)
  }

  /** What `create` checks before any lookup: a body, a user id, a method id
      and a title that is not blank. */
  predicate CreateShapeOk(userId: Option<Uuid>, body: Option<RecipeBody>)
  {
    body.Some? && userId.Some? && body.value.methodId.Some? && body.value.title.Some?
    && !IsBlank(body.value.title.value)
  }

  /** The recipe `create` builds: the body's fields copied verbatim, global only
      when the body says exactly `true`, stamped `now` and not deleted. */
  function NewRecipe(id: Uuid, owner: Uuid, b: RecipeBody, now: Time): Recipe
    requires b.methodId.Some? && b.title.Some?
  {
    Recipe(id, owner, b.methodId.value, b.title.value, b.coffeeAmount, b.waterAmount, b.grindSize,
           b.brewTimeSeconds, b.waterTemperatureCelsius, b.rating, b.isGlobal == Some(true), now, now, None)
  }

  /** An update body with no field at all. */
  predicate AllNull(b: RecipeBody)
  {
    && b.methodId.None? && b.title.None? && b.coffeeAmount.None? && b.waterAmount.None?
    && b.grindSize.None? && b.brewTimeSeconds.None? && b.waterTemperatureCelsius.None?
    && b.rating.None? && b.isGlobal.None?
  }

  /** An update names a brew method that does not exist. */
  predicate MethodMissing(b: RecipeBody, methods: map<Uuid, BrewMethod>)
  {
    b.methodId.Some? && b.methodId.value !in methods
  }

  /** The field checks of an update: a provided title is not blank, and the
      provided numbers pass the same ranges as at creation. */
  predicate PatchFieldsOk(b: RecipeBody)
  {
    (b.title.Some? ==> !IsBlank(b.title.value)) && RangesOk(b)
  }

  /** The recipe after a successful update: each provided field replaces the
      stored value and each omitted one keeps it. `updatedAt` is an
      `@UpdateTimestamp`, written only when the flush finds a changed column, so
      it becomes `now` exactly when some field differs from the stored one.
      Identity, owner, creation time and deletion mark never change. */
  function ApplyUpdate(r: Recipe, b: RecipeBody, now: Time): (u: Recipe)
    ensures u.id == r.id && u.owner == r.owner && u.createdAt == r.createdAt && u.deletedAt == r.deletedAt
    ensures u.brewMethod == Patched(b.methodId, r.brewMethod) && u.title == Patched(b.title, r.title)
    ensures u.coffeeAmount == PatchedNullable(b.coffeeAmount, r.coffeeAmount)
    ensures u.waterAmount == PatchedNullable(b.waterAmount, r.waterAmount)
    ensures u.grindSize == PatchedNullable(b.grindSize, r.grindSize)
    ensures u.brewTimeSeconds == PatchedNullable(b.brewTimeSeconds, r.brewTimeSeconds)
    ensures u.waterTemperatureCelsius == PatchedNullable(b.waterTemperatureCelsius, r.waterTemperatureCelsius)
    ensures u.rating == PatchedNullable(b.rating, r.rating)
    ensures u.isGlobal == Patched(b.isGlobal, r.isGlobal)
    ensures u.(updatedAt := r.updatedAt) == r <==> u == r
    ensures u != r ==> u.updatedAt == now
  {
    var patched := PatchedColumns(r, b);
    if patched == r then r else patched.(updatedAt := now)
  }

  /** The stored columns after the setters of an update, before any timestamp. */
  function PatchedColumns(r: Recipe, b: RecipeBody): Recipe
  {
    r.(brewMethod := Patched(b.methodId, r.brewMethod),
       title := Patched(b.title, r.title),
       coffeeAmount := PatchedNullable(b.coffeeAmount, r.coffeeAmount),
       waterAmount := PatchedNullable(b.waterAmount, r.waterAmount),
       grindSize := PatchedNullable(b.grindSize, r.grindSize),
       brewTimeSeconds := PatchedNullable(b.brewTimeSeconds, r.brewTimeSeconds),
       waterTemperatureCelsius := PatchedNullable(b.waterTemperatureCelsius, r.waterTemperatureCelsius),
       rating := PatchedNullable(b.rating, r.rating),
       isGlobal := Patched(b.isGlobal, r.isGlobal))
  }

  /** A body that only repeats stored values changes nothing, not even the
      update time. */
  lemma RepeatedValuesKeepTimestamp(r: Recipe, now: Time)
    ensures ApplyUpdate(r, RecipeBody(Some(r.brewMethod), Some(r.title), r.coffeeAmount, r.waterAmount, r.grindSize,
                                      r.brewTimeSeconds, r.waterTemperatureCelsius, r.rating, Some(r.isGlobal)), now) == r
  {
  }

  /** With unique ids, the lookup finds the one row carrying `id`. */
  lemma FindByIdUnique(rows: seq<Recipe>, id: Uuid, i: nat)
    requires UniqueIds(rows) && i < |rows| && rows[i].id == id
    ensures FindById(rows, id) == Some(i)
  {
  }

  class RecipeService {
    const recipes: RecipeRepository
    const brewMethods: BrewMethodsRepository
    const users: UserRepository

    constructor (recipes: RecipeRepository, brewMethods: BrewMethodsRepository, users: UserRepository)
      ensures this.recipes == recipes && this.brewMethods == brewMethods && this.users == users
    {
      this.recipes := recipes;
      this.brewMethods := brewMethods;
      this.users := users;
    }

    /** `create`: 400 for a missing body, id or title or a blank title; then 404
        for an unknown user or method; then 400 for a value out of range;
        otherwise one new recipe built from the body. */
    method Create(userId: Option<Uuid>, body: Option<RecipeBody>, newId: Uuid, now: Time) returns (r: Result<RecipeResponse>)
      requires recipes.Valid() && forall j | 0 <= j < |recipes.rows| :: recipes.rows[j].id != newId
      modifies recipes
      ensures recipes.Valid()
      ensures !CreateShapeOk(userId, body) ==> r == Err(BadRequest)
      ensures (CreateShapeOk(userId, body) && (userId.value !in users.rows || body.value.methodId.value !in brewMethods.rows))
                ==> r == Err(NotFound)
      ensures (CreateShapeOk(userId, body) && userId.value in users.rows && body.value.methodId.value in brewMethods.rows
               && !RangesOk(body.value))
                ==> r == Err(BadRequest)
      ensures r.Ok? <==>
                && CreateShapeOk(userId, body)
                && userId.value in users.rows && body.value.methodId.value in brewMethods.rows
                && RangesOk(body.value)
      ensures !r.Ok? ==> recipes.rows == old(recipes.rows)
      ensures r.Ok? ==>
                var recipe := NewRecipe(newId, userId.value, body.value, now);
                recipes.rows == old(recipes.rows) + [recipe] && r.value == ToResponse(recipe)
    {
      if body.None? {
        return Err(BadRequest);
      }
      var b := body.value;
      if userId.None? || b.methodId.None? || b.title.None? {
        return Err(BadRequest);
      }
      if IsBlank(b.title.value) {
        return Err(BadRequest);
      }
      if userId.value !in users.rows {
        return Err(NotFound);
      }
      if b.methodId.value !in brewMethods.rows {
        return Err(NotFound);
      }
      if b.rating.Some? && (b.rating.value > 5 || b.rating.value < 1) {
        return Err(BadRequest);
      }
      if b.brewTimeSeconds.Some? && b.brewTimeSeconds.value < 0 {
        return Err(BadRequest);
      }
      if b.waterTemperatureCelsius.Some? && b.waterTemperatureCelsius.value < 0 {
        return Err(BadRequest);
      }
      var recipe := NewRecipe(newId, userId.value, b, now);
      recipes.Insert(recipe);
      r := Ok(ToResponse(recipe));
    }

    /** `listByUserId`: 400 without a user id; otherwise the visible recipes,
        newest first, as response bodies. */
    method ListByUserId(userId: Option<Uuid>) returns (r: Result<seq<RecipeResponse>>)
      ensures r.Err? <==> userId.None?
      ensures r.Err? ==> r.status == BadRequest
      ensures r.Ok? ==>
                var visible := FindVisibleByUserId(recipes.rows, userId.value);
                |r.value| == |visible| && forall k | 0 <= k < |visible| :: r.value[k] == ToResponse(visible[k])
    {
      if userId.None? {
        return Err(BadRequest);
      }
      var visible := FindVisibleByUserId(recipes.rows, userId.value);
      r := Ok(seq(|visible|, k requires 0 <= k < |visible| => ToResponse(visible[k])));
    }

    /** The field-by-field part of `updateRecipe` on a loaded recipe: 404 for an
        unknown brew method, 400 for a blank title or a value out of range,
        otherwise the recipe with every provided field applied, stamped `now`
        only when that changed something. */
    method PatchRecipe(existing: Recipe, b: RecipeBody, now: Time) returns (r: Result<Recipe>)
      ensures MethodMissing(b, brewMethods.rows) ==> r == Err(NotFound)
      ensures !MethodMissing(b, brewMethods.rows) && !PatchFieldsOk(b) ==> r == Err(BadRequest)
      ensures r.Ok? <==> !MethodMissing(b, brewMethods.rows) && PatchFieldsOk(b)
      ensures r.Ok? ==> r.value == ApplyUpdate(existing, b, now)
    {
      var brewMethod, title := existing.brewMethod, existing.title;
      var coffeeAmount, waterAmount, grindSize := existing.coffeeAmount, existing.waterAmount, existing.grindSize;
      var brewTime, temperature, rating := existing.brewTimeSeconds, existing.waterTemperatureCelsius, existing.rating;
      var isGlobal := existing.isGlobal;
      if b.methodId.Some? {
        if b.methodId.value !in brewMethods.rows {
          return Err(NotFound);
        }
        brewMethod := b.methodId.value;
      }
      if b.title.Some? {
        if IsBlank(b.title.value) {
          return Err(BadRequest);
        }
        title := b.title.value;
      }
      coffeeAmount := PatchedNullable(b.coffeeAmount, coffeeAmount);
      waterAmount := PatchedNullable(b.waterAmount, waterAmount);
      grindSize := PatchedNullable(b.grindSize, grindSize);
      if b.brewTimeSeconds.Some? {
        if b.brewTimeSeconds.value < 0 {
          return Err(BadRequest);
        }
        brewTime := b.brewTimeSeconds;
      }
      if b.waterTemperatureCelsius.Some? {
        if b.waterTemperatureCelsius.value < 0 {
          return Err(BadRequest);
        }
        temperature := b.waterTemperatureCelsius;
      }
      if b.rating.Some? {
        if b.rating.value > 5 || b.rating.value < 1 {
          return Err(BadRequest);
        }
        rating := b.rating;
      }
      isGlobal := Patched(b.isGlobal, isGlobal);
      var patched := existing.(brewMethod := brewMethod, title := title, coffeeAmount := coffeeAmount,
                               waterAmount := waterAmount, grindSize := grindSize, brewTimeSeconds := brewTime,
                               waterTemperatureCelsius := temperature, rating := rating, isGlobal := isGlobal);
      assert patched == PatchedColumns(existing, b);
      r := Ok(if patched == existing then existing else patched.(updatedAt := now));
    }

    /** `updateRecipe`: 400 without a user id; 404 unless the recipe exists, is
        live and is the caller's; 400 for a missing or empty body; then the
        field checks of `PatchRecipe`. Only a fully accepted update is saved. */
    method UpdateRecipe(id: Uuid, body: Option<RecipeBody>, userId: Option<Uuid>, now: Time) returns (r: Result<RecipeResponse>)
      requires recipes.Valid()
      modifies recipes
      ensures recipes.Valid()
      ensures userId.None? ==> r == Err(BadRequest)
      ensures userId.Some? && !OwnedLive(old(recipes.rows), id, userId.value) ==> r == Err(NotFound)
      ensures (userId.Some? && OwnedLive(old(recipes.rows), id, userId.value) && (body.None? || AllNull(body.value)))
                ==> r == Err(BadRequest)
      ensures (userId.Some? && OwnedLive(old(recipes.rows), id, userId.value) && body.Some? && !AllNull(body.value)
               && MethodMissing(body.value, brewMethods.rows))
                ==> r == Err(NotFound)
      ensures (userId.Some? && OwnedLive(old(recipes.rows), id, userId.value) && body.Some? && !AllNull(body.value)
               && !MethodMissing(body.value, brewMethods.rows) && !PatchFieldsOk(body.value))
                ==> r == Err(BadRequest)
      ensures r.Ok? <==>
                && userId.Some? && OwnedLive(old(recipes.rows), id, userId.value)
                && body.Some? && !AllNull(body.value)
                && !MethodMissing(body.value, brewMethods.rows) && PatchFieldsOk(body.value)
      ensures !r.Ok? ==> recipes.rows == old(recipes.rows)
      ensures r.Ok? ==>
                var i := FindById(old(recipes.rows), id).value;
                var updated := ApplyUpdate(old(recipes.rows)[i], body.value, now);
                recipes.rows == old(recipes.rows)[i := updated] && r.value == ToResponse(updated)
    {
      if userId.None? {
        return Err(BadRequest);
      }
      var found := FindById(recipes.rows, id);
      if found.None? {
        return Err(NotFound);
      }
      var i := found.value;
      var existing := recipes.rows[i];
      if existing.deletedAt.Some? {
        return Err(NotFound);
      }
      if existing.owner != userId.value {
        return Err(NotFound);
      }
      if body.None? {
        return Err(BadRequest);
      }
      if AllNull(body.value) {
        return Err(BadRequest);
      }
      var patched := PatchRecipe(existing, body.value, now);
      if patched.Err? {
        return Err(patched.status);
      }
      recipes.Update(i, patched.value);
      r := Ok(ToResponse(patched.value));
    }

    /** `delete`: 400 without a user id; 404 unless the recipe exists, is live
        and is the caller's; otherwise the recipe is marked deleted at `now`. */
    method Delete(id: Uuid, userId: Option<Uuid>, now: Time) returns (r: Result<()>)
      requires recipes.Valid()
      modifies recipes
      ensures recipes.Valid()
      ensures userId.None? ==> r == Err(BadRequest)
      ensures userId.Some? && !OwnedLive(old(recipes.rows), id, userId.value) ==> r == Err(NotFound)
      ensures r.Ok? <==> userId.Some? && OwnedLive(old(recipes.rows), id, userId.value)
      ensures !r.Ok? ==> recipes.rows == old(recipes.rows)
      ensures r.Ok? ==>
                var i := FindById(old(recipes.rows), id).value;
                recipes.rows == old(recipes.rows)[i := old(recipes.rows)[i].(deletedAt := Some(now), updatedAt := now)]
    {
      if userId.None? {
        return Err(BadRequest);
      }
      var found := FindById(recipes.rows, id);
      if found.None? {
        return Err(NotFound);
      }
      var i := found.value;
      var recipe := recipes.rows[i];
      if recipe.deletedAt.Some? {
        return Err(NotFound);
      }
      if recipe.owner != userId.value {
        return Err(NotFound);
      }
      recipes.Update(i, recipe.(deletedAt := Some(now), updatedAt := now));
      r := Ok(());
    }
  }

  /** Once deleted, a recipe is gone for its owner: a second delete and any
      update answer 404, and the visibility query no longer lists it. */
  method DeletedRecipeIsGone(svc: RecipeService, id: Uuid, user: Uuid, body: Option<RecipeBody>, now: Time, later: Time)
    returns (deleted: Result<()>, update: Result<RecipeResponse>, again: Result<()>)
    requires svc.recipes.Valid()
    modifies svc.recipes
    ensures deleted.Ok? ==> update == Err(NotFound) && again == Err(NotFound)
    ensures deleted.Ok? ==> forall x | x in FindVisibleByUserId(svc.recipes.rows, user) :: x.id != id
  {
    deleted := svc.Delete(id, Some(user), now);
    if deleted.Ok? {
      var i := FindById(old(svc.recipes.rows), id).value;
      FindByIdUnique(svc.recipes.rows, id, i);
    }
    update := svc.UpdateRecipe(id, body, Some(user), later);
    again := svc.Delete(id, Some(user), later);
    if deleted.Ok? {
      forall x | x in FindVisibleByUserId(svc.recipes.rows, user)
        ensures x.id != id
      {
        VisibleIff(svc.recipes.rows, user, x);
      }
    }
  }
}
