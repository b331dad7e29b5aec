/** The Player document of server/models/Player.js. */
module Players {
  import opened Common

  /** The closed set of playing roles a player is registered under. */
  datatype Category = Batsman | Bowler | AllRounder | Wicketkeeper

  /** The strings the schema's `category` enum accepts. */
  const CategoryNames: set<string> := {"Batsman", "Bowler", "All-Rounder", "Wicketkeeper"}

  /** The stored spelling of a category. */
  function CategoryName(c: Category): (name: string)
    ensures name in CategoryNames
  {
    match c
    case Batsman => "Batsman"
    case Bowler => "Bowler"
    case AllRounder => "All-Rounder"
    case Wicketkeeper => "Wicketkeeper"
  }

  /** Enum validation of a category string: it is accepted exactly when it is
      one of the four names, and it then denotes the category spelled that way. */
  function ParseCategory(s: string): (r: Option<Category>)
    ensures r.Some? <==> s in CategoryNames
    ensures r.Some? ==> CategoryName(r.value) == s
  {
    if s == "Batsman" then Some(Batsman)
    else if s == "Bowler" then Some(Bowler)
    else if s == "All-Rounder" then Some(AllRounder)
    else if s == "Wicketkeeper" then Some(Wicketkeeper)
    else None
  }

  /** Spelling a category and validating the spelling gives the category back. */
  lemma ParseCategoryName(c: Category)
    ensures ParseCategory(CategoryName(c)) == Some(c)
  {
  }

  /** A player. `soldTo` is the owning team (null while unsold). */
  datatype Player = Player(
    name: string,
    category: Category,
    rating: int,
    basePrice: int,
    isSold: bool,
    soldTo: Option<TeamId>,
    soldPrice: int)

  /** Why the schema refuses to create a player. */
  datatype PlayerError =
    PlayerNameRequired | CategoryRequired | CategoryNotInEnum | RatingRequired | BasePriceRequired

  /** The sale fields of a player nobody has bought: the schema defaults. */
  predicate Unsold(p: Player) {
    !p.isSold && p.soldTo == None && p.soldPrice == 0
  }

  /** The sale flag and the owner agree, and an unsold player carries no price.
      A sold player's price is whatever the sale recorded, which may be zero. */
  predicate SaleFieldsAgree(p: Player) {
    (p.isSold <==> p.soldTo.Some?) && (!p.isSold ==> p.soldPrice == 0)
  }

  /** Creating a player document from its submitted fields. An empty string
      counts as a missing required string, as in the schema's `required`
      validator, which runs before the `enum` validator of the same field; a
      missing field is `None`. The sale fields may be submitted too; each one
      left out takes its schema default. The first failing field in schema
      order is reported. */
  function NewPlayer(name: string, category: string, rating: Option<int>, basePrice: Option<int>,
                     isSold: Option<bool>, soldTo: Option<Option<TeamId>>, soldPrice: Option<int>)
    : (r: Result<Player, PlayerError>)
    ensures r.Ok? <==> name != "" && category in CategoryNames && rating.Some? && basePrice.Some?
    ensures name == "" ==> r == Err(PlayerNameRequired)
    ensures name != "" && category == "" ==> r == Err(CategoryRequired)
    ensures name != "" && category != "" && category !in CategoryNames ==> r == Err(CategoryNotInEnum)
    ensures name != "" && category in CategoryNames && rating.None? ==> r == Err(RatingRequired)
    ensures name != "" && category in CategoryNames && rating.Some? && basePrice.None?
      ==> r == Err(BasePriceRequired)
    ensures r.Ok? ==>
      && r.value.name == name
      && CategoryName(r.value.category) == category
      && r.value.rating == rating.value
      && r.value.basePrice == basePrice.value
      && (r.value.isSold <==> isSold == Some(true))
      && r.value.soldTo == (if soldTo.Some? then soldTo.value else None)
      && r.value.soldPrice == (if soldPrice.Some? then soldPrice.value else 0)
    ensures r.Ok? && isSold.None? && soldTo.None? && soldPrice.None? ==>
      Unsold(r.value) && SaleFieldsAgree(r.value)
  {
    if name == "" then Err(PlayerNameRequired)
    else if category == "" then Err(CategoryRequired)
    else
      match ParseCategory(category)
      case None => Err(CategoryNotInEnum)
      case Some(c) =>
        if rating.None? then Err(RatingRequired)
        else if basePrice.None? then Err(BasePriceRequired)
        else
          Ok(Player(name, c, rating.value, basePrice.value,
                    isSold == Some(true),
                    if soldTo.Some? then soldTo.value else None,
                    if soldPrice.Some? then soldPrice.value else 0))
  }
}
