/**
 The records of the board: file types, uploaded files, sections, threads and
 posts, as the database holds them. Foreign keys are the integer primary keys
 of the referenced rows; a nullable foreign key is an `Option`. Date and time
 columns are integer timestamps, which keeps their total order.
 */
module Records {

  datatype Option<+T> = None | Some(value: T)

  datatype Result<+T, +E> = Ok(value: T) | Err(error: E)

  /** An accepted attachment kind. */
  datatype FileType = FileType(id: nat, extension: string, mime: string)

  /** An uploaded attachment; `fileType` references a FileType. */
  datatype File = File(
    id: nat,
    name: string,
    fileType: nat,
    isDeleted: bool,
    hash: string,
    file: string,
    thumb: string,
    imageWidth: nat,
    imageHeight: nat)

  /** A board section; `fileTypes` is its many-to-many set of allowed FileType ids. */
  datatype Section = Section(
    id: nat,
    slug: string,
    name: string,
    description: string,
    fileTypes: set<nat>,
    forceFiles: bool,
    filesizeLimit: nat,
    anonymity: bool,
    defaultName: string,
    bumplimit: nat,
    threadlimit: nat,
    threadsPerPage: nat)

  /** A thread; `section` references a Section. */
  datatype Thread = Thread(id: nat, bump: int, section: nat)

  /**
   A post. `thread` references a Thread and may be empty; `file` references
   the one File the post owns, if any; `opPost` flags the opening post.
   */
  datatype Post = Post(
    id: nat,
    pid: nat,
    thread: Option<nat>,
    opPost: bool,
    date: int,
    poster: Option<string>,
    tripcode: string,
    email: string,
    topic: string,
    file: Option<nat>,
    password: string,
    message: string,
    messageHtml: string)

  /** The rows of every table the queries join, each in storage order. */
  datatype Store = Store(
    fileTypes: seq<FileType>,
    files: seq<File>,
    threads: seq<Thread>,
    posts: seq<Post>)
}
