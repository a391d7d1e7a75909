/**
 * The mock data `GameService` starts from, with dates as epoch milliseconds
 * (a date-only string is midnight UTC) and ratings in tenths.
 *
 * The long texts (cover URLs, descriptions, avatar URLs, review contents)
 * are kept apart in `SeedTexts`, so that facts about the seed can be stated
 * for any texts and hold in particular for the seeded ones.
 */
module MockData {
  import opened Wrappers
  import opened Model

  datatype GameText = GameText(cover: string, description: string)
  datatype ReviewText = ReviewText(avatar: Option<string>, content: string)

  /** The long texts of games 1-6 and of reviews r1-r9. */
  datatype SeedTexts = SeedTexts(
    g1: GameText, g2: GameText, g3: GameText, g4: GameText, g5: GameText, g6: GameText,
    r1: ReviewText, r2: ReviewText, r3: ReviewText, r4: ReviewText, r5: ReviewText,
    r6: ReviewText, r7: ReviewText, r8: ReviewText, r9: ReviewText)

  const Texts: SeedTexts := SeedTexts(
    GameText(
      "https://placehold.co/300x400/4A90E2/ffffff?text=Zelda+BOTW&font=roboto",
      "An open-world action-adventure game where you explore Hyrule and defeat Calamity Ganon."),
    GameText(
      "https://placehold.co/300x400/E57373/ffffff?text=RDR2&font=roboto",
      "An epic tale of life in America at the dawn of the modern age."),
    GameText(
      "https://placehold.co/300x400/FFB74D/ffffff?text=Elden+Ring&font=roboto",
      "A dark fantasy action RPG set in the Lands Between."),
    GameText(
      "https://placehold.co/300x400/9575CD/ffffff?text=Hades&font=roboto",
      "A rogue-like dungeon crawler where you defy the god of the dead."),
    GameText(
      "https://placehold.co/300x400/81C784/ffffff?text=Hollow+Knight&font=roboto",
      "Explore a vast interconnected underground kingdom filled with secrets."),
    GameText(
      "https://placehold.co/300x400/64B5F6/ffffff?text=BG3&font=roboto",
      "Gather your party and return to the Forgotten Realms in this epic D&D adventure."),
    ReviewText(
      None,
      "Breath of the Wild revolutionized the open-world genre. The freedom it gives players is unmatched, and every corner of Hyrule is worth exploring. The physics system, climbing mechanics, and emergent gameplay make every playthrough unique."),
    ReviewText(
      Some("https://via.placeholder.com/50/FF6B6B/ffffff?text=GP"),
      "One of the best games I've ever played. The exploration is amazing and the world feels truly alive."),
    ReviewText(
      Some("https://via.placeholder.com/50/4ECDC4/ffffff?text=ZF"),
      "This game set a new standard for open-world games. Everything about it is polished and fun."),
    ReviewText(
      Some("https://via.placeholder.com/50/95E1D3/ffffff?text=WF"),
      "The narrative and character development in RDR2 is unparalleled. The attention to detail in the world is stunning."),
    ReviewText(
      Some("https://via.placeholder.com/50/F38181/ffffff?text=RF"),
      "This game is a technical marvel. The story made me cry. Arthur Morgan is one of the best protagonists in gaming."),
    ReviewText(
      Some("https://via.placeholder.com/50/AA96DA/ffffff?text=SV"),
      "Elden Ring takes everything great about Dark Souls and expands it into an open world. The boss fights are epic."),
    ReviewText(
      Some("https://via.placeholder.com/50/FCBAD3/ffffff?text=TO"),
      "Every victory feels earned. The world is beautiful and terrifying. Definitely recommend for Souls fans."),
    ReviewText(
      Some("https://via.placeholder.com/50/A8D8EA/ffffff?text=IG"),
      "Just one more run... The story and gameplay mesh perfectly. Best roguelike I've played."),
    ReviewText(
      Some("https://via.placeholder.com/50/AACC00/ffffff?text=ML"),
      "The art style, music, and world design create an unforgettable experience. Every area feels unique."))

  /** `getMockGames()`. */
  function MockGames(): seq<Game> {
    MockGamesWith(Texts)
  }

  /** `getMockReviews()`. */
  function MockReviews(): seq<Review> {
    MockReviewsWith(Texts)
  }

  /** `getMockGames()`, with the long texts taken from `t`. */
  function MockGamesWith(t: SeedTexts): seq<Game>
  {
    [
      Game("1", "The Legend of Zelda: Breath of the Wild", "Nintendo EPD", "Nintendo", 1488499200000,
        ["Action", "Adventure", "Open World"],
        ["Nintendo Switch", "Wii U"],
        t.g1.cover,
        t.g1.description,
        45, 3),
      Game("2", "Red Dead Redemption 2", "Rockstar Studios", "Rockstar Games", 1540512000000,
        ["Action", "Adventure", "Western"],
        ["PlayStation 4", "Xbox One", "PC"],
        t.g2.cover,
        t.g2.description,
        42, 2),
      Game("3", "Elden Ring", "FromSoftware", "Bandai Namco", 1645747200000,
        ["Action RPG", "Dark Fantasy", "Open World"],
        ["PlayStation 5", "PlayStation 4", "Xbox Series X/S", "Xbox One", "PC"],
        t.g3.cover,
        t.g3.description,
        35, 2),
      Game("4", "Hades", "Supergiant Games", "Supergiant Games", 1600300800000,
        ["Roguelike", "Action", "Indie"],
        ["PC", "Nintendo Switch", "PlayStation 5", "Xbox Series X/S"],
        t.g4.cover,
        t.g4.description,
        40, 1),
      Game("5", "Hollow Knight", "Team Cherry", "Team Cherry", 1487894400000,
        ["Metroidvania", "Action", "Platformer"],
        ["PC", "Nintendo Switch", "PlayStation 4", "Xbox One"],
        t.g5.cover,
        t.g5.description,
        40, 1),
      Game("6", "Baldur's Gate 3", "Larian Studios", "Larian Studios", 1691020800000,
        ["RPG", "Strategy", "Adventure"],
        ["PC", "PlayStation 5", "Xbox Series X/S"],
        t.g6.cover,
        t.g6.description,
        0, 0)
    ]
  }

  /** `getMockGameStatuses()`; `now` is the clock reading the entry for game 2 takes. */
  function MockGameStatuses(now: Time): seq<GameStatus> {
    [
      GameStatus("1", "user-1", Completed, Some(120), Some(1710460800000), 1701388800000),
      GameStatus("2", "user-1", Playing, Some(45), Some(now), 1704844800000),
      GameStatus("3", "user-1", Completed, Some(85), Some(1708387200000), 1704412800000),
      GameStatus("6", "user-1", Wishlist, None, None, 1727740800000)
    ]
  }

  /** `getMockReviews()`, with the long texts taken from `t`. */
  function MockReviewsWith(t: SeedTexts): seq<Review>
  {
    [
      Review("r1", "1", "user-1", "You", t.r1.avatar, 4,
        "A Masterpiece of Open World Design",
        t.r1.content,
        1710547200000, None, 24),
      Review("r2", "1", "user-2", "GamerPro23", t.r2.avatar, 3,
        "Incredible Adventure",
        t.r2.content,
        1707523200000, None, 18),
      Review("r3", "1", "user-3", "ZeldaFan99", t.r3.avatar, 4,
        "Perfect Game",
        t.r3.content,
        1705276800000, None, 31),
      Review("r4", "2", "user-4", "WesternFan", t.r4.avatar, 2,
        "A Story-Driven Masterpiece",
        t.r4.content,
        1709251200000, None, 15),
      Review("r5", "2", "user-5", "RockstarFan", t.r5.avatar, 3,
        "Best Game Ever Made",
        t.r5.content,
        1708387200000, None, 42),
      Review("r6", "3", "user-6", "SoulsVeteran", t.r6.avatar, 4,
        "FromSoft at Their Best",
        t.r6.content,
        1710028800000, None, 27),
      Review("r7", "3", "user-7", "TarnishedOne", t.r7.avatar, 3,
        "Challenging but Rewarding",
        t.r7.content,
        1708819200000, None, 19),
      Review("r8", "4", "user-8", "IndieGamer", t.r8.avatar, 4,
        "Addictive Gameplay Loop",
        t.r8.content,
        1705708800000, None, 12),
      Review("r9", "5", "user-9", "MetroidvaniaLover", t.r9.avatar, 4,
        "Atmospheric Perfection",
        t.r9.content,
        1704412800000, None, 22)
    ]
  }
}
