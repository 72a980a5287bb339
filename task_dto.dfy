/** The input of task creation and the validation constraints declared on it. */
module Dto {
  import opened Wrappers
  import opened Enum

  /** The creation input, with its constructor defaults: no assignee and
      status TODO. */
  datatype TaskDTO = TaskDTO(
    title: string,
    description: string,
    assigneeId: Option<string> := None,
    status: TaskStatus := Todo
  )

  const TitleMinLength: nat := 3
  const TitleMaxLength: nat := 255

  /** A constraint a DTO can violate. */
  datatype Violation = TitleBlank | TitleTooLong | TitleTooShort | DescriptionBlank

  /** `NotBlank` without a normaliser: only the empty string is blank (a
      string of spaces, or "0", is not). */
  predicate NotBlank(s: string) {
    s != []
  }

  /** The violations the validator reports, constraint by constraint in
      declaration order. `Length` counts characters and reports at most one
      of too long and too short; an empty title violates both `NotBlank`
      and `Length`. The assignee and the status carry no constraint. */
  function Violations(dto: TaskDTO): (r: seq<Violation>)
    ensures TitleBlank in r <==> dto.title == []
    ensures TitleTooLong in r <==> |dto.title| > TitleMaxLength
    ensures TitleTooShort in r <==> |dto.title| < TitleMinLength
    ensures DescriptionBlank in r <==> dto.description == []
    ensures |r| <= 3
  {
    (if NotBlank(dto.title) then [] else [TitleBlank])
    + (if |dto.title| > TitleMaxLength then [TitleTooLong]
       else if |dto.title| < TitleMinLength then [TitleTooShort]
       else [])
    + (if NotBlank(dto.description) then [] else [DescriptionBlank])
  }

  /** `count($errors) == 0`. */
  predicate IsValid(dto: TaskDTO) {
    |Violations(dto)| == 0
  }

  /** A DTO is valid exactly when its title is non-blank and 3 to 255
      characters long and its description is non-blank. */
  lemma ValidIff(dto: TaskDTO)
    ensures IsValid(dto) <==>
      && dto.title != []
      && TitleMinLength <= |dto.title| <= TitleMaxLength
      && dto.description != []
  {
  }

  /** An empty title makes the DTO invalid, with both the `NotBlank` and the
      `Length` violation; so does an empty description. */
  lemma EmptyFieldsInvalid(dto: TaskDTO)
    ensures dto.title == [] ==> !IsValid(dto) && TitleBlank in Violations(dto) && TitleTooShort in Violations(dto)
    ensures dto.description == [] ==> !IsValid(dto) && DescriptionBlank in Violations(dto)
  {
  }

  /** The assignee and the status never affect validity. */
  lemma ValidityIgnoresAssigneeAndStatus(dto: TaskDTO, a: Option<string>, s: TaskStatus)
    ensures IsValid(dto.(assigneeId := a, status := s)) <==> IsValid(dto)
  {
  }

  /** The constructor defaults. */
  lemma ConstructorDefaults(title: string, description: string)
    ensures TaskDTO(title, description).assigneeId == None
    ensures TaskDTO(title, description).status == Todo
  {
  }
}
