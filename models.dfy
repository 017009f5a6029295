/** models.py: the dog profile and the checks its constructor makes. A
    profile is an immutable value, as the frozen dataclass is. */
module Models {
  import opened Wrappers

  /** The activity levels the constructor accepts. */
  const ActivityLevels: seq<string> := ["low", "normal", "high"]

  /** `DogProfile`; `activity` is a plain string, since the `Literal` type
      is only checked by the constructor. */
  datatype DogProfile = DogProfile(weightKg: real, neutered: bool, activity: string)

  /** `DogProfile(...)` with `__post_init__`: the weight must be positive,
      then the activity must be one of the three levels; `neutered` is
      never checked. The defaults are a neutered dog of normal activity. */
  function NewDogProfile(weightKg: real, neutered: bool := true, activity: string := "normal")
    : (r: Result<DogProfile, string>)
    ensures r.Success? <==> weightKg > 0.0 && activity in ActivityLevels
    ensures weightKg <= 0.0 ==> r == Failure("weight_kg must be greater than 0")
    ensures weightKg > 0.0 && activity !in ActivityLevels ==> r == Failure("activity must be one of: low, normal, high")
    ensures r.Success? ==> r.value == DogProfile(weightKg, neutered, activity)
  {
    if weightKg <= 0.0 then Failure("weight_kg must be greater than 0")
    else if activity !in ActivityLevels then Failure("activity must be one of: low, normal, high")
    else Success(DogProfile(weightKg, neutered, activity))
  }

  /** A profile built from the weight alone is a neutered dog of normal
      activity; a profile invalid in both ways reports the weight. */
  lemma ProfileDefaults(weightKg: real)
    ensures weightKg > 0.0 ==> NewDogProfile(weightKg) == Success(DogProfile(weightKg, true, "normal"))
    ensures weightKg <= 0.0 ==> NewDogProfile(weightKg, false, "sleepy") == Failure("weight_kg must be greater than 0")
  {
  }
}
