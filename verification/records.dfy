/** The records the analytics endpoint returns, one per user and course. */
module Records {
  import opened Options

  /** A JSON field as the script receives it from the decoded response: `null`, a
      string, or any other JSON value (number, boolean, array or object). */
  datatype FieldValue = Null | Text(text: string) | NonText

  /** One item of the response's `results` array, with the six keys the script reads.
      The three text fields are copied into the sheet as they are; the two dates go
      through `format_date`; the minutes are an integer or `null`. */
  datatype ActivityRecord = ActivityRecord(
    userEmail: string,
    courseCategory: string,
    courseTitle: string,
    courseEnrollDate: FieldValue,
    courseFirstCompletionDate: FieldValue,
    numVideoConsumedMinutes: Option<int>
  )
}
