/**
 * The directory walk that drives both loops of imgaug.py: os.walk yields one
 * (root, dirs, files) triple per directory, and the script loops over the
 * files of each. The order of the directories and of the files in each is
 * whatever the walk produced; the model takes it as given.
 */
module Walk {

  /** One directory of the walk: its path and the entries listed in it. */
  datatype WalkDir<E> = WalkDir(root: string, files: seq<E>)

  /** The entries of the walk in the order the two nested loops visit them. */
  function Flatten<E>(walk: seq<WalkDir<E>>): seq<E>
  {
    if walk == [] then [] else walk[0].files + Flatten(walk[1..])
  }
}

/** How a run of the script ends. */
module Outcome {

  /** Why a run stopped early: an exception that nothing in the script catches. */
  datatype AbortReason =
    | LabelDirUnusable  // os.path.isdir(None) raises TypeError, os.makedirs('') raises FileNotFoundError
    | PicUnbound        // a non-regular entry before any imread assigned pic: NameError
    | PicIsNone         // a non-regular entry after imread returned None: raises at line 72, 76 or 78, before any file is written
    | LabelReadFailed   // a label read failed with anything but UnicodeDecodeError

  datatype Status = Running | Aborted(reason: AbortReason)
}
