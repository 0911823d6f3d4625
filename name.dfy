/** The library record of Name.java: an original name and, once set, its key. */
module Names {
  import opened Options

  class Name {
    /** The original, unmodified name; nothing assigns it after construction. */
    const name: string
    /** The key; None stands for the null the field starts with. */
    var preprocessedName: Option<string>

    constructor (inputName: string)
      ensures GetName() == inputName
      ensures GetPreprocessedName() == None
    {
      name := inputName;
      preprocessedName := None;
    }

    function GetName(): string
      reads this
    {
      name
    }

    method SetPreprocessedName(processedInput: string)
      modifies this
      ensures GetPreprocessedName() == Some(processedInput)
      ensures GetName() == old(GetName())
    {
      preprocessedName := Some(processedInput);
    }

    function GetPreprocessedName(): Option<string>
      reads this
    {
      preprocessedName
    }
  }
}
