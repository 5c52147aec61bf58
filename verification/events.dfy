/**
 * The event record every page shows, and the three fixture events the pages
 * read from.
 */
module Events {
  import opened Wrappers

  datatype Organiser = Organiser(name: string, college: string, verified: bool)

  /** A campus event seeking sponsorship. The ISO date is not modelled. */
  datatype Event = Event(
    id: string,
    title: string,
    description: string,
    audienceSize: int,
    packages: seq<string>,
    benefits: seq<string>,
    tags: seq<string>,
    location: string,
    poster: Option<string>,
    organiser: Organiser)

  const Hackathon := Event(
    "hack-001", "TechFest Hackathon 2025",
    "48-hour campus hackathon focusing on AI for social good.",
    600, ["Title Sponsor", "Gold", "Silver"],
    ["Logo on stage", "Booth space", "Keynote mention"],
    ["tech", "hackathon", "ai"], "Boston, MA", Some("/placeholder.svg"),
    Organiser("Priya Sharma", "MIT", true))

  const Carnival := Event(
    "cultural-101", "Spring Cultural Carnival",
    "Celebrate diversity with performances, food stalls, and workshops.",
    1200, ["Presenting Sponsor", "Community Partner"],
    ["Stage branding", "Social shoutouts", "VIP passes"],
    ["cultural", "festival"], "Austin, TX", Some("/placeholder.svg"),
    Organiser("Diego Lopez", "UT Austin", true))

  const SportsMeet := Event(
    "sports-050", "Inter-College Sports Meet",
    "Three-day sports tournament featuring track, basketball, and soccer.",
    2000, ["Platinum", "Gold", "Silver"],
    ["Jersey branding", "On-field banners", "Award ceremony mention"],
    ["sports", "tournament"], "Palo Alto, CA", Some("/placeholder.svg"),
    Organiser("Ava Chen", "Stanford University", true))

  /** The fixture list every page filters, in its source order. */
  const SampleEvents: seq<Event> := [Hackathon, Carnival, SportsMeet]
}
