/**
 * The activity catalog of src/data/activities.js: for each mood, eight suggested
 * activities, each with an id, a name and a duration such as "5 min" or "15-30 min".
 */
module Activities {
  import opened Moods

  datatype Activity = Activity(id: string, name: string, duration: string)

  /** The catalog, keyed by mood. */
  const Catalog: map<Mood, seq<Activity>> := map[
    Happy := [
      Activity("happy1", "Dance to your favorite song", "5 min"),
      Activity("happy2", "Share your positivity", "10 min"),
      Activity("happy3", "Try something new", "15-30 min"),
      Activity("happy4", "Creative expression", "20 min"),
      Activity("happy5", "Random act of kindness", "5-15 min"),
      Activity("happy6", "Set a new goal", "10 min"),
      Activity("happy7", "Outdoor adventure", "15-30 min"),
      Activity("happy8", "Social connection", "15 min")
    ],
    Sad := [
      Activity("sad1", "Gentle yoga stretch", "5 min"),
      Activity("sad2", "Mindful breathing", "3 min"),
      Activity("sad3", "Comfort break", "10 min"),
      Activity("sad4", "Nature connection", "5 min"),
      Activity("sad5", "Hydration refresh", "2 min"),
      Activity("sad6", "Soothing sounds", "7 min"),
      Activity("sad7", "Cozy comfort", "5 min"),
      Activity("sad8", "Emotion journaling", "10 min")
    ],
    Neutral := [
      Activity("neutral1", "Quick energy boost", "1 min"),
      Activity("neutral2", "Gratitude moment", "2 min"),
      Activity("neutral3", "Creative expression", "5 min"),
      Activity("neutral4", "Quick read", "10 min"),
      Activity("neutral5", "Mindful moment", "3 min"),
      Activity("neutral6", "Quick walk", "5 min"),
      Activity("neutral7", "Facial relaxation", "2 min"),
      Activity("neutral8", "Deep breathing", "2 min")
    ]
  ]

  /** The activities suggested for a mood. */
  function ActivitiesFor(m: Mood): (r: seq<Activity>)
    ensures |r| == 8
  {
    CatalogShape();
    Catalog[m]
  }

  /** The catalog has exactly the three moods as keys, with eight entries each. */
  lemma CatalogShape()
    ensures Catalog.Keys == {Happy, Sad, Neutral}
    ensures forall m :: m in Catalog && |Catalog[m]| == 8
  {
    forall m ensures m in Catalog {
      match m
      case Happy =>
      case Sad =>
      case Neutral =>
    }
  }

  /** The id of the (i+1)-th activity of a mood: the mood's label followed by the
      digit i + 1. */
  function CatalogId(m: Mood, i: nat): string
    requires i < 8
  {
    MoodName(m) + [('1' as int + i) as char]
  }

  /** Every id has the form mood label + position. */
  lemma IdForm(m: Mood, i: nat)
    requires i < 8
    ensures ActivitiesFor(m)[i].id == CatalogId(m, i)
  {
  }

  /** No two catalog entries, of the same mood or of different moods, share an id. */
  lemma IdsDistinct(m1: Mood, i1: nat, m2: Mood, i2: nat)
    requires i1 < 8 && i2 < 8
    ensures ActivitiesFor(m1)[i1].id == ActivitiesFor(m2)[i2].id <==> m1 == m2 && i1 == i2
  {
    IdForm(m1, i1);
    IdForm(m2, i2);
    var a, b := CatalogId(m1, i1), CatalogId(m2, i2);
    if a == b {
      assert |MoodName(m1)| == |MoodName(m2)| by {
        assert |a| == |MoodName(m1)| + 1 && |b| == |MoodName(m2)| + 1;
      }
      assert m1 == m2;
      assert a[|a| - 1] == b[|b| - 1];
    }
  }
}
