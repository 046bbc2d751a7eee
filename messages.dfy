/** The user-visible message strings of localization/en.js, plus the literal
    messages written out inline by the core. */
module Messages {
  const Created := "Created successfully."
  const Successfull := "Successfully loaded"
  const LoginSuccess := "Login successful"
  const Updated := "Updated successfully."
  const Deleted := "Deleted successfully."
  const AlreadyExist := "Already Exist"
  const LoginFailed := "Login failed"
  const NotAuthorized := "Not authorized."
  const NotFound := "Data not found."
  const DoesNotExist := "Does not exist."
  const InvalidData := "Invalid data"
  const BadRequest := "Bad Request."
  const UnableToProcessRequest := "Unable to process your request."
  const DbWriteFailed := "Something went wrong!"
  const UnknownError := "Something went wrong. Please try again."

  // Literals written inline by the core services and collaborators.
  const UnableToUpdate := "Unable to update"
  const ReferenceExists := "Reference with same source and key already exist"
  const HdfsWriteFailed := "Write to HDFS failed"
  const HdfsReadFailed := "Read to HDFS failed"
  const ImageProcessingFailed := "Image processing failed"
  const UnableToUploadImage := "Unable to upload image"
}
