/** The offer and course records the screens read (types.ts, extended with the
    `start_time` and `courses` fields the components use). Instants are
    milliseconds since the epoch, already parsed. */
module Types {
  import opened Wrappers

  datatype Course = Course(title: string, originalPrice: int, discountedPrice: int)

  datatype Offer = Offer(
    id: string,
    title: Option<string>,
    originalPrice: int,
    discountedPrice: int,
    startTime: Option<int>,
    endTime: Option<int>,
    courses: Option<seq<Course>>,
    isActive: bool)
}
