/**
 * The team list of the about page (src/app/about/page.tsx): every doctor of the site data
 * (src/data/home.ts) becomes a team member with the same fields plus an `anchor`, taken
 * from the `#` fragment of the doctor's profile link, or `team-<id>` when the link has none.
 */
module AboutPage {
  import opened Text

  datatype SocialNetwork = Facebook | Instagram | Twitter
  datatype SocialLink = SocialLink(network: SocialNetwork, href: string)

  datatype Doctor = Doctor(id: string, name: string, role: string, image: string,
                           profileHref: string, socials: seq<SocialLink>)

  /** `{ ...doctor, anchor }` */
  datatype TeamMember = TeamMember(doctor: Doctor, anchor: string)

  /** `profileHref.split('#')[1] ?? `team-${id}``: the second piece exists exactly when the
      link has a `#`; `??` falls back only when it does not, so an empty piece is kept. */
  function Anchor(profileHref: string, id: string): (anchor: string)
    ensures '#' !in profileHref ==> anchor == "team-" + id
    ensures '#' in profileHref ==> '#' !in anchor
  {
    var parts := Split(profileHref, '#');
    SplitSingleIff(profileHref, '#');
    if |parts| > 1 then parts[1] else "team-" + id
  }

  function TeamMembers(doctors: seq<Doctor>): (members: seq<TeamMember>)
    ensures |members| == |doctors|
    ensures forall k :: 0 <= k < |doctors| ==>
      members[k].doctor == doctors[k] && members[k].anchor == Anchor(doctors[k].profileHref, doctors[k].id)
  {
    if doctors == [] then []
    else [TeamMember(doctors[0], Anchor(doctors[0].profileHref, doctors[0].id))] + TeamMembers(doctors[1..])
  }

  /** A link without `#` gives the fallback anchor. */
  lemma AnchorWithoutFragment(profileHref: string, id: string)
    requires '#' !in profileHref
    ensures Anchor(profileHref, id) == "team-" + id
  {
    SplitNoSeparator(profileHref, '#');
  }

  /** A link with `#` gives the text between the first `#` and the next one, or the end. */
  lemma AnchorIsFragment(path: string, fragment: string, rest: string, id: string)
    requires '#' !in path && '#' !in fragment
    ensures Anchor(path + "#" + fragment, id) == fragment
    ensures Anchor(path + "#" + fragment + "#" + rest, id) == fragment
  {
    assert path + "#" + fragment == path + ['#'] + fragment;
    SplitTwo(path, fragment, '#');
    var s := path + "#" + fragment + "#" + rest;
    assert s == path + ['#'] + (fragment + ['#'] + rest);
    SplitAtFirst(path, fragment + ['#'] + rest, '#');
    SplitAtFirst(fragment, rest, '#');
  }

  /** A trailing `#` gives the empty anchor, not the fallback. */
  lemma TrailingHashGivesEmptyAnchor(path: string, id: string)
    requires '#' !in path
    ensures Anchor(path + "#", id) == ""
  {
    AnchorIsFragment(path, "", "", id);
    assert path + "#" + "" == path + "#";
  }

  /** `/about#team-howard` has the anchor `team-howard`. */
  lemma HowardAnchor(profileHref: string, id: string)
    requires profileHref == "/about#team-howard"
    ensures Anchor(profileHref, id) == "team-howard"
  {
    assert profileHref == "/about" + "#" + "team-howard";
    AnchorIsFragment("/about", "team-howard", "", id);
  }
}
