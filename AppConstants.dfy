/** The message constants the services put into the exceptions they raise. */
module AppConstants {

  const EmptyImageMsg: string := "Image file should not be empty!"

  const ExtensionMsg: string := "File extensions other than .jpeg, .jpg, .png are not allowed"

  const PageErrorMsg: string := "Page Size, Page Number should not be less than 1 and sortBy, sortDir properly inserted"
}
