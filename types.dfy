/** The value types shared by the portal (types.ts). */
module Types {

  datatype Option<+T> = None | Some(value: T)

  /** A thrown `Error`: the operation either returns a value or fails with a message. */
  datatype Result<+T> = Ok(value: T) | Err(message: string)

  /** The five interface languages, by their enum value 'en', 'hi', 'te', 'ta', 'ml'. */
  datatype Language = English | Hindi | Telugu | Tamil | Malayalam

  datatype UserRole = Citizen | Admin | Guest

  /** Exactly the five members of the `ResourceCategory` enum. */
  datatype ResourceCategory = Education | Healthcare | Finance | Agriculture | Government

  /** The string value of each category member. */
  function CategoryName(c: ResourceCategory): string
  {
    match c
    case Education => "Education"
    case Healthcare => "Healthcare"
    case Finance => "Finance"
    case Agriculture => "Agriculture"
    case Government => "Government"
  }

  /** The string union 'idle' | 'downloading' | 'downloaded'. */
  datatype DownloadStatus = Idle | Downloading | Downloaded

  /** A catalog entry; `link` is the optional URL of a web-discovered item. */
  datatype ResourceItem = ResourceItem(
    id: string,
    title: string,
    description: string,
    category: ResourceCategory,
    icon: string,
    offlineAvailable: bool,
    downloadStatus: DownloadStatus,
    progress: int,
    link: Option<string>)

  /** The persisted projection of a resource: exactly these three fields. */
  datatype ResourceProgress = ResourceProgress(
    resourceId: string,
    downloadStatus: DownloadStatus,
    progress: int)

  /** The public view of an account; it carries no credential. */
  datatype User = User(
    id: string,
    name: string,
    email: string,
    role: UserRole,
    village: Option<string>)

  /**
   * The status/progress pairs the download simulator can produce:
   * idle at 0, downloaded at 100, and downloading at a multiple of 10 below 100.
   */
  predicate StatusProgressOk(status: DownloadStatus, progress: int)
  {
    match status
    case Idle => progress == 0
    case Downloaded => progress == 100
    case Downloading => 0 <= progress < 100 && progress % 10 == 0
  }

  predicate ItemOk(item: ResourceItem)
  {
    StatusProgressOk(item.downloadStatus, item.progress)
  }

  predicate AllItemsOk(items: seq<ResourceItem>)
  {
    forall i :: 0 <= i < |items| ==> ItemOk(items[i])
  }

  predicate UniqueIds(items: seq<ResourceItem>)
  {
    forall i, j :: 0 <= i < j < |items| ==> items[i].id != items[j].id
  }
}
